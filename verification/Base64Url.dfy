/** Two base64url codecs written apart (section 5 of RFC 4648, no padding), the
    browser functions they are built on, and the lengths PKCE asks of them. */
module Base64Url {
  import opened HubTables
  import OAuth

  type Byte = b: int | 0 <= b < 256
  type Sextet = v: int | 0 <= v < 64

  /** A text whose characters stand for bytes. */
  type BinaryText = s: string | forall i :: 0 <= i < |s| ==> s[i] < '\U{100}' witness ""

  // --------------------------------------------------------------- alphabets

  function CommonSymbol(v: Sextet): char
    requires v < 62
  {
    if v < 26 then 'A' + v as char else if v < 52 then 'a' + (v - 26) as char else '0' + (v - 52) as char
  }

  function StandardSymbol(v: Sextet): char {
    if v < 62 then CommonSymbol(v) else if v == 62 then '+' else '/'
  }

  function UrlSymbol(v: Sextet): char {
    if v < 62 then CommonSymbol(v) else if v == 62 then '-' else '_'
  }

  function CommonValue(c: char): (v: Option<Sextet>)
    ensures v.Some? ==> v.value < 62 && CommonSymbol(v.value) == c
  {
    if 'A' <= c <= 'Z' then Some((c - 'A') as int)
    else if 'a' <= c <= 'z' then Some((c - 'a') as int + 26)
    else if '0' <= c <= '9' then Some((c - '0') as int + 52)
    else None
  }

  function StandardValue(c: char): Option<Sextet> {
    if c == '+' then Some(62) else if c == '/' then Some(63) else CommonValue(c)
  }

  function UrlValue(c: char): Option<Sextet> {
    if c == '-' then Some(62) else if c == '_' then Some(63) else CommonValue(c)
  }

  predicate AllStandard(s: string) {
    forall i :: 0 <= i < |s| ==> StandardValue(s[i]).Some?
  }

  /** /^[A-Za-z0-9_-]*$/ */
  predicate AllUrl(s: string) {
    forall i :: 0 <= i < |s| ==> UrlValue(s[i]).Some?
  }

  // ------------------------------------------- three bytes to four sextets

  function Sextet0(a: Byte): Sextet {
    a / 4
  }

  function Sextet1(a: Byte, b: Byte): Sextet {
    a % 4 * 16 + b / 16
  }

  function Sextet2(b: Byte, c: Byte): Sextet {
    b % 16 * 4 + c / 64
  }

  function Sextet3(c: Byte): Sextet {
    c % 64
  }

  function Sextets(bytes: seq<Byte>): seq<Sextet> {
    if bytes == [] then []
    else if |bytes| == 1 then [Sextet0(bytes[0]), Sextet1(bytes[0], 0)]
    else if |bytes| == 2 then [Sextet0(bytes[0]), Sextet1(bytes[0], bytes[1]), Sextet2(bytes[1], 0)]
    else Group(bytes[0], bytes[1], bytes[2]) + Sextets(bytes[3..])
  }

  function Group(a: Byte, b: Byte, c: Byte): seq<Sextet> {
    [Sextet0(a), Sextet1(a, b), Sextet2(b, c), Sextet3(c)]
  }

  function Byte0(a: int, b: int): Byte
    requires 0 <= a < 64 && 0 <= b < 64
  {
    a * 4 + b / 16
  }

  function Byte1(b: int, c: int): Byte
    requires 0 <= b < 64 && 0 <= c < 64
  {
    b % 16 * 16 + c / 4
  }

  function Byte2(c: int, d: int): Byte
    requires 0 <= c < 64 && 0 <= d < 64
  {
    c % 4 * 64 + d
  }

  /** Leftover bits are dropped. */
  function Bytes(values: seq<Sextet>): seq<Byte> {
    if |values| < 2 then []
    else if |values| == 2 then [Byte0(values[0], values[1])]
    else if |values| == 3 then [Byte0(values[0], values[1]), Byte1(values[1], values[2])]
    else [Byte0(values[0], values[1]), Byte1(values[1], values[2]), Byte2(values[2], values[3])] + Bytes(values[4..])
  }

  lemma {:induction false} SextetsLength(bytes: seq<Byte>)
    ensures |Sextets(bytes)| == (4 * |bytes| + 2) / 3
    ensures |Sextets(bytes)| % 4 != 1
  {
    if 3 <= |bytes| {
      SextetsLength(bytes[3..]);
    }
  }

  lemma FirstBits(a: Byte, b: Byte)
    ensures Byte0(Sextet0(a), Sextet1(a, b)) == a
  {}

  lemma MiddleBits(a: Byte, b: Byte, c: Byte)
    ensures Byte1(Sextet1(a, b), Sextet2(b, c)) == b
  {
    LowBits(a % 4, b / 16);
    HighBits(b % 16, c / 64);
  }

  lemma LowBits(x: int, y: int)
    requires 0 <= y < 16
    ensures (x * 16 + y) % 16 == y
  {}

  lemma HighBits(x: int, y: int)
    requires 0 <= y < 4
    ensures (x * 4 + y) / 4 == x
  {}

  lemma LastBits(b: Byte, c: Byte)
    ensures Byte2(Sextet2(b, c), Sextet3(c)) == c
  {}

  lemma BytesOfFour(p: Sextet, q: Sextet, r: Sextet, s: Sextet, rest: seq<Sextet>)
    ensures Bytes([p, q, r, s] + rest) == [Byte0(p, q), Byte1(q, r), Byte2(r, s)] + Bytes(rest)
  {
    assert ([p, q, r, s] + rest)[4..] == rest;
  }

  lemma BytesOfGroup(a: Byte, b: Byte, c: Byte, rest: seq<Sextet>)
    ensures Bytes(Group(a, b, c) + rest) == [a, b, c] + Bytes(rest)
  {
    FirstBits(a, b);
    MiddleBits(a, b, c);
    LastBits(b, c);
    BytesOfFour(Sextet0(a), Sextet1(a, b), Sextet2(b, c), Sextet3(c), rest);
  }

  lemma {:induction false} BytesOfSextets(bytes: seq<Byte>)
    ensures Bytes(Sextets(bytes)) == bytes
  {
    if |bytes| == 1 {
      FirstBits(bytes[0], 0);
    } else if |bytes| == 2 {
      FirstBits(bytes[0], bytes[1]);
      MiddleBits(bytes[0], bytes[1], 0);
    } else if 3 <= |bytes| {
      BytesOfSextets(bytes[3..]);
      BytesOfGroup(bytes[0], bytes[1], bytes[2], Sextets(bytes[3..]));
      assert bytes == [bytes[0], bytes[1], bytes[2]] + bytes[3..];
    }
  }

  // --------------------------------------- the browser's btoa, atob and strings

  function BinaryOf(bytes: seq<Byte>): (s: BinaryText)
    ensures |s| == |bytes|
    ensures forall i :: 0 <= i < |bytes| ==> s[i] as int == bytes[i]
  {
    seq(|bytes|, i requires 0 <= i < |bytes| => bytes[i] as char)
  }

  function BytesIn(s: BinaryText): (bytes: seq<Byte>)
    ensures |bytes| == |s|
    ensures forall i :: 0 <= i < |s| ==> bytes[i] == s[i] as int
  {
    seq(|s|, i requires 0 <= i < |s| => s[i] as int)
  }

  function Equals(n: nat): (s: string)
    ensures |s| == n && forall i :: 0 <= i < n ==> s[i] == '='
  {
    seq(n, _ => '=')
  }

  /** How many characters complete a group of four. */
  function Missing(length: nat): nat {
    (4 - length % 4) % 4
  }

  function Standard(values: seq<Sextet>): (s: string)
    ensures |s| == |values| && forall i :: 0 <= i < |s| ==> s[i] == StandardSymbol(values[i])
  {
    seq(|values|, i requires 0 <= i < |values| => StandardSymbol(values[i]))
  }

  function Btoa(s: BinaryText): string {
    var text := Standard(Sextets(BytesIn(s)));
    text + Equals(Missing(|text|))
  }

  function StandardValues(s: string): (values: seq<Sextet>)
    requires AllStandard(s)
    ensures |values| == |s| && forall i :: 0 <= i < |s| ==> values[i] == StandardValue(s[i]).value
  {
    seq(|s|, i requires 0 <= i < |s| => StandardValue(s[i]).value)
  }

  /** One or two final '=' complete a group of four. */
  function Unpadded(s: string): string {
    if |s| % 4 != 0 || s == "" || s[|s| - 1] != '=' then s
    else if s[|s| - 2] == '=' then s[..|s| - 2]
    else s[..|s| - 1]
  }

  /** atob on text without white space; None where it throws. */
  function Atob(s: string): Option<BinaryText> {
    var text := Unpadded(s);
    if |text| % 4 == 1 || !AllStandard(text) then None else Some(BinaryOf(Bytes(StandardValues(text))))
  }

  /** s.replaceAll(from, to) for single characters. */
  function Replaced(s: string, from: char, to: char): (r: string)
    ensures |r| == |s| && forall i :: 0 <= i < |s| ==> r[i] == if s[i] == from then to else s[i]
  {
    seq(|s|, i requires 0 <= i < |s| => if s[i] == from then to else s[i])
  }

  /** s.replaceAll(c, ''). */
  function Without(s: string, c: char): string {
    if s == "" then "" else (if s[0] == c then "" else [s[0]]) + Without(s[1..], c)
  }

  /** s.padEnd(Math.ceil(s.length / 4) * 4, '='). */
  function Padded(s: string): string {
    s + Equals((|s| + 3) / 4 * 4 - |s|)
  }

  // --------------------------------------------------------- the two codecs

  function Encoded(bytes: seq<Byte>): (s: string)
    ensures |s| == |Sextets(bytes)| && forall i :: 0 <= i < |s| ==> s[i] == UrlSymbol(Sextets(bytes)[i])
  {
    var values := Sextets(bytes);
    seq(|values|, i requires 0 <= i < |values| => UrlSymbol(values[i]))
  }

  function UrlValues(s: string): (values: seq<Sextet>)
    requires AllUrl(s)
    ensures |values| == |s| && forall i :: 0 <= i < |s| ==> values[i] == UrlValue(s[i]).value
  {
    seq(|s|, i requires 0 <= i < |s| => UrlValue(s[i]).value)
  }

  /** None where both decoders throw. */
  function Decoded(s: string): Option<seq<Byte>> {
    if !AllUrl(s) || |s| % 4 == 1 then None else Some(Bytes(UrlValues(s)))
  }

  lemma ValueOfSymbol(v: Sextet)
    ensures UrlValue(UrlSymbol(v)) == Some(v)
  {}

  /** For every byte sequence, decoding its encoding gives it back. */
  lemma {:induction false} DecodeEncode(bytes: seq<Byte>)
    ensures Decoded(Encoded(bytes)) == Some(bytes)
  {
    BytesOfSextets(bytes);
    SextetsLength(bytes);
    forall i | 0 <= i < |Encoded(bytes)| ensures UrlValue(Encoded(bytes)[i]) == Some(Sextets(bytes)[i]) {
      ValueOfSymbol(Sextets(bytes)[i]);
    }
    assert UrlValues(Encoded(bytes)) == Sextets(bytes);
  }

  lemma StandardToUrl(bytes: seq<Byte>)
    ensures Replaced(Replaced(Btoa(BinaryOf(bytes)), '+', '-'), '/', '_') == Encoded(bytes) + Equals(Missing(|Encoded(bytes)|))
    ensures forall i :: 0 <= i < |Encoded(bytes)| ==> Encoded(bytes)[i] != '='
  {
    assert BytesIn(BinaryOf(bytes)) == bytes;
  }

  lemma {:induction false} WithoutEquals(body: string, n: nat)
    requires forall i :: 0 <= i < |body| ==> body[i] != '='
    ensures Without(body + Equals(n), '=') == body
    decreases |body| + n
  {
    var s := body + Equals(n);
    if body != "" {
      WithoutEquals(body[1..], n);
      assert s[1..] == body[1..] + Equals(n) && s[0] == body[0];
      assert [body[0]] + body[1..] == body;
    } else if 0 < n {
      WithoutEquals("", n - 1);
      assert s[1..] == "" + Equals(n - 1) && s[0] == '=';
    } else {
      assert s == "";
    }
  }

  lemma UrlToStandard(s: string)
    requires AllUrl(s)
    ensures var t := Replaced(Replaced(s, '-', '+'), '_', '/');
      AllStandard(t) && StandardValues(t) == UrlValues(s)
  {
    var t := Replaced(Replaced(s, '-', '+'), '_', '/');
    assert forall i :: 0 <= i < |s| ==> StandardValue(t[i]) == UrlValue(s[i]);
  }

  lemma NoStandardEquals(t: string)
    requires AllStandard(t)
    ensures forall i :: 0 <= i < |t| ==> t[i] != '='
  {
    forall i | 0 <= i < |t| ensures t[i] != '=' {
      assert StandardValue(t[i]).Some?;
    }
  }

  /** How much padding each length gets. */
  lemma PaddingOf(n: nat)
    ensures (n + 3) / 4 * 4 - n == if n % 4 == 0 then 0 else 4 - n % 4
  {}

  lemma UnpadOne(t: string)
    requires |t| % 4 == 3
    requires t[|t| - 1] != '='
    ensures Unpadded(t + "=") == t
  {
    assert (t + "=")[..|t|] == t;
  }

  lemma UnpadTwo(t: string)
    requires |t| % 4 == 2
    ensures Unpadded(t + "==") == t
  {
    assert (t + "==")[..|t|] == t;
  }

  lemma UnpadThree(t: string)
    requires |t| % 4 == 1
    ensures Unpadded(t + "===") == t + "="
  {
    assert (t + "===")[..|t| + 1] == t + "=";
  }

  lemma UnpaddedPadded(t: string)
    requires forall i :: 0 <= i < |t| ==> t[i] != '='
    ensures |t| % 4 != 1 ==> Unpadded(Padded(t)) == t
    ensures |t| % 4 == 1 ==> |t| < |Unpadded(Padded(t))| && Unpadded(Padded(t))[|t|] == '='
  {
    PaddingOf(|t|);
    assert Equals(0) == "" && Equals(1) == "=" && Equals(2) == "==" && Equals(3) == "===";
    if |t| % 4 == 1 {
      UnpadThree(t);
    } else if |t| % 4 == 2 {
      UnpadTwo(t);
    } else if |t| % 4 == 3 {
      UnpadOne(t);
    } else {
      assert t + "" == t;
    }
  }

  /** atob of the padded text decodes it, or throws on a length no encoding has. */
  lemma {:induction false} AtobOfPadded(t: string)
    requires AllStandard(t)
    ensures Atob(Padded(t)) == if |t| % 4 == 1 then None else Some(BinaryOf(Bytes(StandardValues(t))))
  {
    NoStandardEquals(t);
    UnpaddedPadded(t);
    if |t| % 4 == 1 {
      var text := Unpadded(Padded(t));
      assert StandardValue(text[|t|]).None?;
    }
  }

  /** Both decoders reach atob with the same text: padding and replacing commute. */
  lemma PaddingCommutes(s: string)
    ensures Padded(Replaced(Replaced(s, '-', '+'), '_', '/')) == Replaced(Replaced(Padded(s), '-', '+'), '_', '/')
  {}

  lemma DecodedByAtob(s: string)
    requires AllUrl(s)
    ensures var binary := Atob(Padded(Replaced(Replaced(s, '-', '+'), '_', '/')));
      Decoded(s) == if binary.Some? then Some(BytesIn(binary.value)) else None
  {
    var t := Replaced(Replaced(s, '-', '+'), '_', '/');
    UrlToStandard(s);
    AtobOfPadded(t);
    if |s| % 4 != 1 {
      var bytes := Bytes(UrlValues(s));
      assert BytesIn(BinaryOf(bytes)) == bytes;
    }
  }

  /** contabilidad: the padding is cut by moving an end index. */
  method EncodeBase64Url(bytes: array<Byte>) returns (encoded: string)
    ensures encoded == Encoded(bytes[..])
  {
    var binary: BinaryText := "";
    for i := 0 to bytes.Length
      invariant binary == BinaryOf(bytes[..i])
    {
      binary := binary + [bytes[i] as char];
    }
    assert bytes[..bytes.Length] == bytes[..];
    StandardToUrl(bytes[..]);
    var text := Replaced(Replaced(Btoa(binary), '+', '-'), '/', '_');
    var end := |text|;
    while 0 < end && text[end - 1] == '='
      invariant |Encoded(bytes[..])| <= end <= |text|
    {
      end := end - 1;
    }
    encoded := text[..end];
  }

  method BytesOfBinary(binary: BinaryText) returns (bytes: array<Byte>)
    ensures bytes[..] == BytesIn(binary)
  {
    bytes := new Byte[|binary|](_ => 0);
    for index := 0 to |binary|
      invariant forall i :: 0 <= i < index ==> bytes[i] == binary[i] as int
    {
      bytes[index] := binary[index] as int;
    }
    assert bytes[..] == BytesIn(binary);
  }

  method DecodeBase64Url(value: string) returns (bytes: Option<array<Byte>>)
    ensures bytes.Some? <==> Decoded(value).Some?
    ensures bytes.Some? ==> bytes.value[..] == Decoded(value).value
  {
    if !AllUrl(value) {
      return None;
    }
    DecodedByAtob(value);
    var binary := Atob(Padded(Replaced(Replaced(value, '-', '+'), '_', '/')));
    if binary.None? {
      return None;
    }
    var filled := BytesOfBinary(binary.value);
    return Some(filled);
  }

  /** inventario: every '=' is removed. */
  method BytesToB64u(bytes: array<Byte>) returns (encoded: string)
    ensures encoded == Encoded(bytes[..])
  {
    var text: BinaryText := "";
    for i := 0 to bytes.Length
      invariant text == BinaryOf(bytes[..i])
    {
      text := text + [bytes[i] as char];
    }
    assert bytes[..bytes.Length] == bytes[..];
    StandardToUrl(bytes[..]);
    WithoutEquals(Encoded(bytes[..]), Missing(|Encoded(bytes[..])|));
    encoded := Without(Replaced(Replaced(Btoa(text), '+', '-'), '/', '_'), '=');
  }

  function B64uToBytes(encoded: string): (bytes: Option<seq<Byte>>)
    ensures bytes == Decoded(encoded)
  {
    if !AllUrl(encoded) then None
    else
      PaddingCommutes(encoded);
      DecodedByAtob(encoded);
      match Atob(Replaced(Replaced(Padded(encoded), '-', '+'), '_', '/'))
      case None => None
      case Some(text) => Some(BytesIn(text))
  }

  // ------------------------------------------------------------ PKCE lengths

  lemma UrlSymbolsArePkce(bytes: seq<Byte>, extra: string)
    requires '-' in extra && '_' in extra
    ensures forall i :: 0 <= i < |Encoded(bytes)| ==> OAuth.PkceChar(Encoded(bytes)[i], extra)
  {}

  /** The encoding passes the server's verifier check, and its challenge check,
      exactly for 32 to 96 bytes; a 32-byte digest is among them. */
  lemma PkceAcceptsIff32To96Bytes(bytes: seq<Byte>)
    ensures OAuth.ValidVerifier(Encoded(bytes)) <==> 32 <= |bytes| <= 96
    ensures OAuth.ValidPkce(Encoded(bytes), "-_") <==> 32 <= |bytes| <= 96
    ensures |bytes| == 32 ==> |Encoded(bytes)| == 43
  {
    SextetsLength(bytes);
    UrlSymbolsArePkce(bytes, "-._~");
    UrlSymbolsArePkce(bytes, "-_");
  }
}
