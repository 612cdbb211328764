/** Percent-encoded asset keys, Parquet file names built from them, and the right-split that reads them back. */
module StorageKeys {
  import opened Types
  import opened Digits

  type Byte = n: int | 0 <= n < 256

  /** Bytes that need no encoding: ASCII letters and digits, hyphen, underscore and full stop. */
  predicate Safe(b: Byte) {
    'A' as int <= b <= 'Z' as int || 'a' as int <= b <= 'z' as int || '0' as int <= b <= '9' as int
    || b == '-' as int || b == '_' as int || b == '.' as int
  }

  function EncodeByte(b: Byte): string {
    if Safe(b) then [b as char] else ['%', HexUpper(b / 16), HexUpper(b % 16)]
  }

  /** The storage key of an asset id given as its bytes. */
  function KeyOf(raw: seq<Byte>): string {
    if |raw| == 0 then "" else EncodeByte(raw[0]) + KeyOf(raw[1..])
  }

  lemma KeyFrom(raw: seq<Byte>, i: nat)
    requires i <= |raw|
    ensures i == |raw| ==> KeyOf(raw[i..]) == ""
    ensures i < |raw| ==> KeyOf(raw[i..]) == EncodeByte(raw[i]) + KeyOf(raw[i + 1..])
  {
    hide EncodeByte;
    assert i < |raw| ==> raw[i..][1..] == raw[i + 1..];
  }

  /** Builds the key byte by byte. */
  method StorageKeyFor(raw: seq<Byte>) returns (out: string)
    ensures out == KeyOf(raw)
  {
    hide KeyOf, HexUpper;
    out := "";
    assert raw[0..] == raw && "" + KeyOf(raw) == KeyOf(raw);
    for i := 0 to |raw|
      invariant out + KeyOf(raw[i..]) == KeyOf(raw)
    {
      var b := raw[i];
      KeyFrom(raw, i);
      assert out + (EncodeByte(b) + KeyOf(raw[i + 1..])) == out + EncodeByte(b) + KeyOf(raw[i + 1..]);
      if Safe(b) {
        out := out + [b as char];
      } else {
        out := out + ['%', HexUpper(b / 16), HexUpper(b % 16)];
      }
    }
    KeyFrom(raw, |raw|);
    assert out + "" == out;
  }

  function CharBytes(x: char): seq<Byte> {
    var c := x as int;
    if c < 0x80 then [c]
    else if c < 0x800 then [0xC0 + c / 0x40, 0x80 + c % 0x40]
    else if c < 0x1_0000 then [0xE0 + c / 0x1000, 0x80 + c / 0x40 % 0x40, 0x80 + c % 0x40]
    else [0xF0 + c / 0x4_0000, 0x80 + c / 0x1000 % 0x40, 0x80 + c / 0x40 % 0x40, 0x80 + c % 0x40]
  }

  /** UTF-8 bytes of a text, as in section 3 of RFC 3629. */
  function Utf8(s: string): seq<Byte> {
    if |s| == 0 then [] else CharBytes(s[0]) + Utf8(s[1..])
  }

  /** The storage key of an asset id. */
  function AssetKey(asset: Asset): string {
    KeyOf(Utf8(asset))
  }

  // ---------------------------------------------------------------------------------------------
  // Percent decoding, the inverse
  // ---------------------------------------------------------------------------------------------

  function HexValue(c: char): Option<nat> {
    if '0' <= c <= '9' then Some(c as int - '0' as int)
    else if 'A' <= c <= 'F' then Some(c as int - 'A' as int + 10)
    else None
  }

  /** Reads percent-encoded text back to bytes, as in section 2.1 of RFC 3986. */
  function Decode(s: string): Option<seq<Byte>> {
    if |s| == 0 then Some([])
    else if s[0] == '%' then
      if |s| < 3 then None
      else
        var hi, lo, rest := HexValue(s[1]), HexValue(s[2]), Decode(s[3..]);
        if hi.None? || lo.None? || rest.None? then None
        else Some([hi.value * 16 + lo.value] + rest.value)
    else if s[0] as int >= 256 then None
    else
      var rest := Decode(s[1..]);
      if rest.None? then None else Some([s[0] as int] + rest.value)
  }

  lemma HexValueOfDigit(d: nat)
    requires d < 16
    ensures HexValue(HexUpper(d)) == Some(d)
  {
  }

  /** One encoded byte in front of decodable text. */
  lemma DecodeOfByte(b: Byte, rest: string, raw: seq<Byte>)
    requires Decode(rest) == Some(raw)
    ensures Decode(EncodeByte(b) + rest) == Some([b] + raw)
  {
    hide HexUpper, HexValue;
    var s := EncodeByte(b) + rest;
    if Safe(b) {
      assert s[1..] == rest;
    } else {
      HexValueOfDigit(b / 16);
      HexValueOfDigit(b % 16);
      assert s[3..] == rest;
    }
  }

  /** Decoding inverts the key, so distinct ids have distinct keys. */
  lemma {:induction false} DecodeOfKey(raw: seq<Byte>)
    ensures Decode(KeyOf(raw)) == Some(raw)
  {
    if |raw| > 0 {
      hide Decode, EncodeByte;
      DecodeOfKey(raw[1..]);
      DecodeOfByte(raw[0], KeyOf(raw[1..]), raw[1..]);
      assert [raw[0]] + raw[1..] == raw;
    }
  }

  /** What may stand unencoded in one component of an object path. */
  predicate Plain(c: char) {
    'A' <= c <= 'Z' || 'a' <= c <= 'z' || '0' <= c <= '9' || c in {'-', '_', '.'}
  }

  /** A key is one path component of plain characters and escapes, and the id itself wherever the id is plain. */
  lemma {:induction false} KeyIsPlain(raw: seq<Byte>)
    ensures forall i | 0 <= i < |KeyOf(raw)| :: Plain(KeyOf(raw)[i]) || KeyOf(raw)[i] == '%'
    ensures (forall i | 0 <= i < |raw| :: Plain(raw[i] as char)) ==>
              |KeyOf(raw)| == |raw| && forall i | 0 <= i < |raw| :: KeyOf(raw)[i] == raw[i] as char
  {
    if |raw| > 0 {
      KeyIsPlain(raw[1..]);
      ByteIsPlain(raw[0]);
    }
  }

  lemma ByteIsPlain(b: Byte)
    ensures if Plain(b as char) then EncodeByte(b) == [b as char]
            else |EncodeByte(b)| == 3 && EncodeByte(b)[0] == '%' && Plain(EncodeByte(b)[1]) && Plain(EncodeByte(b)[2])
  {
  }

  lemma KeyInjective(a: seq<Byte>, b: seq<Byte>)
    requires KeyOf(a) == KeyOf(b)
    ensures a == b
  {
    DecodeOfKey(a);
    DecodeOfKey(b);
  }

  // ---------------------------------------------------------------------------------------------
  // Reading the bytes back as text
  // ---------------------------------------------------------------------------------------------

  /** How many bytes a character takes whose first byte is `b`; zero for a byte that begins none. */
  function Width(b: Byte): nat {
    if b < 0x80 then 1 else if b < 0xC0 then 0 else if b < 0xE0 then 2 else if b < 0xF0 then 3
    else if b < 0xF8 then 4 else 0
  }

  /** The bits of a first byte that belong to the character's number. */
  function LeadBits(b: Byte): nat {
    if b < 0x80 then b else if b < 0xE0 then b % 0x20 else if b < 0xF0 then b % 0x10 else b % 0x08
  }

  /** Six more bits from each continuation byte. */
  function Continued(bits: nat, rest: seq<Byte>): Option<nat>
    decreases rest
  {
    if |rest| == 0 then Some(bits)
    else if 0x80 <= rest[0] < 0xC0 then Continued(bits * 0x40 + (rest[0] - 0x80), rest[1..])
    else None
  }

  /** The numbers that are characters: all up to 10FFFF but the surrogates. */
  predicate IsScalar(v: nat) {
    v < 0xD800 || 0xE000 <= v < 0x11_0000
  }

  /** Reads UTF-8 text, as in section 3 of RFC 3629. */
  function FromUtf8(bytes: seq<Byte>): Option<string> {
    if |bytes| == 0 then Some("")
    else
      var w := Width(bytes[0]);
      if w == 0 || w > |bytes| then None
      else
        var v, rest := Continued(LeadBits(bytes[0]), bytes[1..w]), FromUtf8(bytes[w..]);
        if v.None? || rest.None? || !IsScalar(v.value) then None else Some([v.value as char] + rest.value)
  }

  lemma NoneContinued(bits: nat)
    ensures Continued(bits, []) == Some(bits)
  {
  }

  lemma OneContinued(bits: nat, rest: seq<Byte>)
    requires |rest| > 0 && 0x80 <= rest[0] < 0xC0
    ensures Continued(bits, rest) == Continued(bits * 0x40 + (rest[0] - 0x80), rest[1..])
  {
  }

  /** The bytes say their number and the character's. */
  ghost predicate SpellsChar(bytes: seq<Byte>, v: nat) {
    |bytes| > 0 && Width(bytes[0]) == |bytes| && Continued(LeadBits(bytes[0]), bytes[1..]) == Some(v)
  }

  lemma TwoBytes(v: nat)
    requires 0x80 <= v < 0x800
    ensures SpellsChar([0xC0 + v / 0x40, 0x80 + v % 0x40], v)
  {
    hide Continued;
    var bytes: seq<Byte> := [0xC0 + v / 0x40, 0x80 + v % 0x40];
    OneContinued(v / 0x40, bytes[1..]);
    NoneContinued(v);
    assert bytes[1..][1..] == [];
  }

  lemma ThreeBytes(v: nat)
    requires 0x800 <= v < 0x1_0000
    ensures SpellsChar([0xE0 + v / 0x1000, 0x80 + v / 0x40 % 0x40, 0x80 + v % 0x40], v)
  {
    hide Continued;
    var bytes: seq<Byte> := [0xE0 + v / 0x1000, 0x80 + v / 0x40 % 0x40, 0x80 + v % 0x40];
    OneContinued(v / 0x1000, bytes[1..]);
    OneContinued(v / 0x40, bytes[2..]);
    NoneContinued(v);
    assert bytes[1..][1..] == bytes[2..] && bytes[2..][1..] == [];
  }

  lemma FourBytes(v: nat)
    requires 0x1_0000 <= v < 0x11_0000
    ensures SpellsChar([0xF0 + v / 0x4_0000, 0x80 + v / 0x1000 % 0x40, 0x80 + v / 0x40 % 0x40, 0x80 + v % 0x40], v)
  {
    hide Continued;
    var bytes: seq<Byte> := [0xF0 + v / 0x4_0000, 0x80 + v / 0x1000 % 0x40, 0x80 + v / 0x40 % 0x40, 0x80 + v % 0x40];
    OneContinued(v / 0x4_0000, bytes[1..]);
    OneContinued(v / 0x1000, bytes[2..]);
    OneContinued(v / 0x40, bytes[3..]);
    NoneContinued(v);
    assert bytes[1..][1..] == bytes[2..] && bytes[2..][1..] == bytes[3..] && bytes[3..][1..] == [];
  }

  lemma OneChar(c: char)
    ensures SpellsChar(CharBytes(c), c as nat) && IsScalar(c as nat)
  {
    var v := c as nat;
    if v >= 0x1_0000 {
      hide SpellsChar;
      FourBytes(v);
    } else if v >= 0x800 {
      hide SpellsChar;
      ThreeBytes(v);
    } else if v >= 0x80 {
      hide SpellsChar;
      TwoBytes(v);
    }
  }

  lemma ReadsChar(bytes: seq<Byte>, v: nat, rest: seq<Byte>)
    requires SpellsChar(bytes, v) && IsScalar(v)
    ensures FromUtf8(bytes + rest) == if FromUtf8(rest).None? then None else Some([v as char] + FromUtf8(rest).value)
  {
    hide LeadBits, Width, Continued;
    var all := bytes + rest;
    assert all[0] == bytes[0] && all[1..|bytes|] == bytes[1..] && all[|bytes|..] == rest;
  }

  /** Text is read back from its bytes. */
  lemma {:induction false} FromUtf8OfUtf8(s: string)
    ensures FromUtf8(Utf8(s)) == Some(s)
  {
    if |s| > 0 {
      hide CharBytes, SpellsChar, FromUtf8;
      OneChar(s[0]);
      FromUtf8OfUtf8(s[1..]);
      ReadsChar(CharBytes(s[0]), s[0] as nat, Utf8(s[1..]));
      assert s == [s[0]] + s[1..];
    }
  }

  /** Distinct asset ids have distinct keys. */
  lemma AssetKeyInjective(a: Asset, b: Asset)
    requires AssetKey(a) == AssetKey(b)
    ensures a == b
  {
    KeyInjective(Utf8(a), Utf8(b));
    FromUtf8OfUtf8(a);
    FromUtf8OfUtf8(b);
  }

  // ---------------------------------------------------------------------------------------------
  // File names
  // ---------------------------------------------------------------------------------------------

  const SUFFIX: string := ".parquet"

  function StripSuffix(s: string, suffix: string): Option<string> {
    if |s| >= |suffix| && s[|s| - |suffix|..] == suffix then Some(s[..|s| - |suffix|]) else None
  }

  /** Splits at the last occurrence of `c`: the text before it and the text after it. */
  function RSplitOnce(s: string, c: char): Option<(string, string)> {
    if |s| == 0 then None
    else
      var init, last := s[..|s| - 1], s[|s| - 1];
      if last == c then Some((init, ""))
      else
        var r := RSplitOnce(init, c);
        if r.None? then None else Some((r.value.0, r.value.1 + [last]))
  }

  datatype FileParts = FileParts(asset: string, firstTs: string, hash: string, len: string)

  /** The asset is what remains after three splits from the right, so it may itself hold underscores. */
  function SplitFileName(name: string): Option<FileParts> {
    var stem := StripSuffix(name, SUFFIX);
    if stem.None? then None
    else
      var r1 := RSplitOnce(stem.value, '_');
      if r1.None? then None
      else
        var r2 := RSplitOnce(r1.value.0, '_');
        if r2.None? then None
        else
          var r3 := RSplitOnce(r2.value.0, '_');
          if r3.None? then None
          else Some(FileParts(r3.value.0, r3.value.1, r2.value.1, r1.value.1))
  }

  predicate AllHex(s: string) {
    forall i | 0 <= i < |s| :: IsHexDigit(s[i])
  }

  function FileAssetKey(name: string): Option<string> {
    var parts := SplitFileName(name);
    if parts.None? then None
    else
      var p := parts.value;
      if |p.asset| == 0 || |p.firstTs| == 0 || |p.len| == 0
         || !AllDigits(p.firstTs) || !AllDigits(p.len)
         || |p.hash| != 16 || !AllHex(p.hash)
      then None
      else Some(p.asset)
  }

  /** The three fields behind the asset: a timestamp, sixteen hexadecimal digits and a length. */
  predicate SuffixFields(ts: string, hash: string, len: string) {
    |ts| > 0 && AllDigits(ts) && |hash| == 16 && AllHex(hash) && |len| > 0 && AllDigits(len)
  }

  lemma {:induction false} RSplitOnceJoins(s: string, c: char)
    ensures RSplitOnce(s, c).Some? ==> s == RSplitOnce(s, c).value.0 + [c] + RSplitOnce(s, c).value.1
  {
    if |s| > 0 && s[|s| - 1] != c {
      RSplitOnceJoins(s[..|s| - 1], c);
    }
  }

  lemma StripSuffixJoins(s: string, suffix: string)
    ensures StripSuffix(s, suffix).Some? ==> s == StripSuffix(s, suffix).value + suffix
  {
  }

  /** A file name names an asset key if and only if it is that non-empty key followed by the three fields. */
  lemma FileAssetKeyIff(name: string, key: string)
    ensures FileAssetKey(name) == Some(key) <==>
              |key| > 0 && exists ts, hash, len :: SuffixFields(ts, hash, len)
                                                   && name == key + "_" + ts + "_" + hash + "_" + len + SUFFIX
  {
    if FileAssetKey(name) == Some(key) {
      var p := SplitFileName(name).value;
      SplitJoins(name);
      assert SuffixFields(p.firstTs, p.hash, p.len);
    }
    if ts, hash, len :| SuffixFields(ts, hash, len) && |key| > 0
                        && name == key + "_" + ts + "_" + hash + "_" + len + SUFFIX {
      SplitOfJoinedName(key, ts, hash, len);
    }
  }

  lemma SplitJoins(name: string)
    requires SplitFileName(name).Some?
    ensures var p := SplitFileName(name).value; name == p.asset + "_" + p.firstTs + "_" + p.hash + "_" + p.len + SUFFIX
  {
    hide RSplitOnce, StripSuffix;
    StripSuffixJoins(name, SUFFIX);
    var stem := StripSuffix(name, SUFFIX).value;
    RSplitOnceJoins(stem, '_');
    var r1 := RSplitOnce(stem, '_').value;
    RSplitOnceJoins(r1.0, '_');
    var r2 := RSplitOnce(r1.0, '_').value;
    RSplitOnceJoins(r2.0, '_');
  }

  /** Every percent sign escaped once more, as legacy writers did to an already encoded key. */
  function Reencode(key: string): string {
    if |key| == 0 then "" else (if key[0] == '%' then "%25" else [key[0]]) + Reencode(key[1..])
  }

  lemma {:induction false} ReencodeInjective(a: string, b: string)
    requires Reencode(a) == Reencode(b)
    ensures a == b
  {
    if |a| > 0 && |b| > 0 {
      var ha := if a[0] == '%' then "%25" else [a[0]];
      var hb := if b[0] == '%' then "%25" else [b[0]];
      assert Reencode(a)[0] == ha[0] && Reencode(b)[0] == hb[0];
      assert Reencode(a)[|ha|..] == Reencode(a[1..]) && Reencode(b)[|hb|..] == Reencode(b[1..]);
      ReencodeInjective(a[1..], b[1..]);
      assert a == [a[0]] + a[1..] && b == [b[0]] + b[1..];
    }
  }

  predicate ComponentMatchesKey(component: string, key: string) {
    component == key || component == Reencode(key)
  }

  predicate ObjectFileMatchesAsset(name: string, key: string) {
    var asset := FileAssetKey(name);
    asset.Some? && ComponentMatchesKey(asset.value, key)
  }

  /** The name the writer generates. */
  function ObjectFileName(asset: string, firstTs: nat, hash: U64, len: nat): string {
    asset + "_" + Dec(firstTs) + "_" + HexPadded(hash, 16) + "_" + Dec(len) + SUFFIX
  }

  lemma {:induction false} RSplitOnceOf(a: string, c: char, b: string)
    requires forall i | 0 <= i < |b| :: b[i] != c
    ensures RSplitOnce(a + [c] + b, c) == Some((a, b))
  {
    var s := a + [c] + b;
    if |b| == 0 {
      assert s[..|s| - 1] == a;
    } else {
      RSplitOnceOf(a, c, b[..|b| - 1]);
      assert s[..|s| - 1] == a + [c] + b[..|b| - 1];
      assert b[..|b| - 1] + [s[|s| - 1]] == b;
    }
  }

  lemma StripSuffixOf(s: string, suffix: string)
    ensures StripSuffix(s + suffix, suffix) == Some(s)
  {
    assert (s + suffix)[..|s|] == s;
  }

  lemma SplitOfJoinedName(asset: string, ts: string, hash: string, len: string)
    requires '_' !in ts && '_' !in hash && '_' !in len
    ensures SplitFileName(asset + "_" + ts + "_" + hash + "_" + len + SUFFIX) == Some(FileParts(asset, ts, hash, len))
  {
    var s1 := asset + "_" + ts;
    var s2 := s1 + "_" + hash;
    StripSuffixOf(s2 + "_" + len, SUFFIX);
    RSplitOnceOf(s2, '_', len);
    RSplitOnceOf(s1, '_', hash);
    RSplitOnceOf(asset, '_', ts);
  }

  lemma SplitOfGeneratedName(asset: string, firstTs: nat, hash: U64, len: nat)
    ensures SplitFileName(ObjectFileName(asset, firstTs, hash, len))
            == Some(FileParts(asset, Dec(firstTs), HexPadded(hash, 16), Dec(len)))
  {
    ValueOfDec(firstTs);
    ValueOfDec(len);
    HexPaddedShape(hash, 16);
    assert '_' !in Dec(firstTs) && '_' !in Dec(len) && '_' !in HexPadded(hash, 16);
    SplitOfJoinedName(asset, Dec(firstTs), HexPadded(hash, 16), Dec(len));
  }

  /** The asset key is recovered from every generated name, underscores included. */
  lemma FileAssetKeyOfGeneratedName(asset: string, firstTs: nat, hash: U64, len: nat)
    requires |asset| > 0
    ensures FileAssetKey(ObjectFileName(asset, firstTs, hash, len)) == Some(asset)
  {
    SplitOfGeneratedName(asset, firstTs, hash, len);
    ValueOfDec(firstTs);
    ValueOfDec(len);
    HexPaddedShape(hash, 16);
  }

  /** Distinct name fields give distinct names. */
  lemma FileNameInjective(a1: string, t1: nat, h1: U64, n1: nat, a2: string, t2: nat, h2: U64, n2: nat)
    requires ObjectFileName(a1, t1, h1, n1) == ObjectFileName(a2, t2, h2, n2)
    ensures a1 == a2 && t1 == t2 && h1 == h2 && n1 == n2
  {
    SplitOfGeneratedName(a1, t1, h1, n1);
    SplitOfGeneratedName(a2, t2, h2, n2);
    ValueOfDec(t1);
    ValueOfDec(t2);
    ValueOfDec(n1);
    ValueOfDec(n2);
    assert Pow16(16) == U64_LIMIT by { Pow16Of16(); }
    HexPaddedInjective(h1, h2, 16);
  }

  lemma Pow16Of16()
    ensures Pow16(16) == U64_LIMIT
  {
    assert Pow16(4) == 0x1_0000;
    assert Pow16(8) == 0x1_0000_0000;
    assert Pow16(12) == 0x1_0000_0000_0000;
  }

  /** A name that matches an asset is a Parquet file name. */
  lemma MatchingNameIsParquet(name: string, key: string)
    requires ObjectFileMatchesAsset(name, key)
    ensures StripSuffix(name, SUFFIX).Some?
  {
  }

  // ---------------------------------------------------------------------------------------------
  // When do two assets' files collide?
  // ---------------------------------------------------------------------------------------------

  function BytesOf(s: string): seq<Byte>
    requires forall i | 0 <= i < |s| :: s[i] as int < 256
  {
    seq(|s|, i requires 0 <= i < |s| => s[i] as int)
  }

  lemma {:induction false} KeyIsAscii(raw: seq<Byte>)
    ensures forall i | 0 <= i < |KeyOf(raw)| :: KeyOf(raw)[i] as int < 128
    ensures forall i | 0 <= i < |KeyOf(raw)| :: KeyOf(raw)[i] == '%' || Safe(KeyOf(raw)[i] as int)
  {
    if |raw| > 0 {
      KeyIsAscii(raw[1..]);
    }
  }

  lemma {:induction false} KeyOfText(s: string)
    requires forall i | 0 <= i < |s| :: s[i] as int < 128 && (s[i] == '%' || Safe(s[i] as int))
    ensures KeyOf(BytesOf(s)) == Reencode(s)
  {
    if |s| > 0 {
      KeyOfText(s[1..]);
      assert BytesOf(s)[1..] == BytesOf(s[1..]);
    }
  }

  /**
   The exact collision condition of the legacy match. A file generated for asset `a` is taken for one
   of asset `b` if and only if they are the same asset or `a`'s id is literally `b`'s encoded key.
   */
  lemma FileMatchesOtherAssetIff(a: seq<Byte>, b: seq<Byte>, firstTs: nat, hash: U64, len: nat)
    requires |a| > 0
    ensures (forall i | 0 <= i < |KeyOf(b)| :: KeyOf(b)[i] as int < 256)
    ensures ObjectFileMatchesAsset(ObjectFileName(KeyOf(a), firstTs, hash, len), KeyOf(b))
            <==> a == b || a == BytesOf(KeyOf(b))
  {
    assert |KeyOf(a)| > 0;
    FileAssetKeyOfGeneratedName(KeyOf(a), firstTs, hash, len);
    KeyIsAscii(b);
    KeyOfText(KeyOf(b));
    if KeyOf(a) == Reencode(KeyOf(b)) {
      KeyInjective(a, BytesOf(KeyOf(b)));
    } else if KeyOf(a) == KeyOf(b) {
      KeyInjective(a, b);
    }
  }

  /** An id without a percent sign is never another asset's key, so its files match no other asset. */
  lemma NoPercentNoCollision(a: seq<Byte>, b: seq<Byte>, firstTs: nat, hash: U64, len: nat)
    requires |a| > 0 && a != b && '%' as int !in a
    ensures !ObjectFileMatchesAsset(ObjectFileName(KeyOf(a), firstTs, hash, len), KeyOf(b))
  {
    FileMatchesOtherAssetIff(a, b, firstTs, hash, len);
    if a == BytesOf(KeyOf(b)) {
      KeyWithoutPercent(b);
    }
  }

  lemma {:induction false} KeyWithoutPercent(raw: seq<Byte>)
    requires forall i | 0 <= i < |KeyOf(raw)| :: KeyOf(raw)[i] as int < 256
    requires '%' as int !in BytesOf(KeyOf(raw))
    ensures BytesOf(KeyOf(raw)) == raw
  {
    if |raw| > 0 {
      var key := KeyOf(raw);
      assert BytesOf(key)[0] == key[0] as int;
      assert Safe(raw[0]);
      assert key[1..] == KeyOf(raw[1..]);
      assert BytesOf(key)[1..] == BytesOf(key[1..]);
      KeyWithoutPercent(raw[1..]);
    }
  }

  /** The collision is real: the id `a%` has the key `a%25`, which is itself a valid id. */
  lemma CollisionExample(firstTs: nat, hash: U64, len: nat)
    ensures var a, b := BytesOf("a%25"), BytesOf("a%");
            a != b && ObjectFileMatchesAsset(ObjectFileName(KeyOf(a), firstTs, hash, len), KeyOf(b))
  {
    var a, b := BytesOf("a%25"), BytesOf("a%");
    assert b == ['a' as int, '%' as int];
    assert b[1..] == ['%' as int] && b[1..][1..] == [];
    assert KeyOf(b[1..]) == "%25";
    assert KeyOf(b) == "a%25";
    FileMatchesOtherAssetIff(a, b, firstTs, hash, len);
  }
}
