/** The `application/x-www-form-urlencoded` serializer the path builders
    use (section 5.2 of the WHATWG URL Standard, as implemented by the
    `form_urlencoded` crate): byte-wise percent-encoding of keys and values,
    and a serializer that appends `key=value` pairs to a string after a
    fixed start position, separating them with '&'.

    The partners proved here are a decoder for the encoding and a parser for
    the serialized pairs: what the serializer writes can be read back. */
module FormUrlEncoded {
  import opened Wrappers

  // ---------------------------------------------------------------------
  // Percent-encoding

  /** Characters the serializer leaves as they are. */
  predicate IsUnreserved(c: char) {
    ('a' <= c <= 'z') || ('A' <= c <= 'Z') || ('0' <= c <= '9') || c == '*' || c == '-' || c == '.' || c == '_'
  }

  /** Characters that can occur in an encoded string. */
  predicate IsEncodedChar(c: char) {
    IsUnreserved(c) || c == '+' || c == '%'
  }

  predicate IsByte(b: int) {
    0 <= b < 256
  }

  /** UTF-8 encoding of one Unicode scalar value. */
  function Utf8(c: char): (bytes: seq<int>)
    ensures 1 <= |bytes| <= 4
    ensures forall i :: 0 <= i < |bytes| ==> IsByte(bytes[i])
    ensures |bytes| == 1 <==> c as int < 0x80
    ensures |bytes| == 1 ==> bytes[0] == c as int
  {
    var n := c as int;
    if n < 0x80 then [n]
    else if n < 0x800 then [0xC0 + n / 0x40, 0x80 + n % 0x40]
    else if n < 0x1_0000 then [0xE0 + n / 0x1000, 0x80 + (n / 0x40) % 0x40, 0x80 + n % 0x40]
    else [0xF0 + n / 0x4_0000, 0x80 + (n / 0x1000) % 0x40, 0x80 + (n / 0x40) % 0x40, 0x80 + n % 0x40]
  }

  function HexDigit(d: int): (c: char)
    requires 0 <= d < 16
    ensures IsUnreserved(c)
  {
    "0123456789ABCDEF"[d]
  }

  /** `%XX` with upper-case hexadecimal digits. */
  function PercentByte(b: int): (s: string)
    requires IsByte(b)
    ensures |s| == 3 && s[0] == '%'
  {
    ['%', HexDigit(b / 16), HexDigit(b % 16)]
  }

  function PercentBytes(bytes: seq<int>): (s: string)
    requires forall i :: 0 <= i < |bytes| ==> IsByte(bytes[i])
    ensures |s| == 3 * |bytes|
    ensures forall i :: 0 <= i < |s| ==> IsEncodedChar(s[i])
  {
    if |bytes| == 0 then "" else PercentByte(bytes[0]) + PercentBytes(bytes[1..])
  }

  function EncodeChar(c: char): (s: string)
    ensures |s| >= 1
    ensures forall i :: 0 <= i < |s| ==> IsEncodedChar(s[i])
  {
    if IsUnreserved(c) then [c]
    else if c == ' ' then "+"
    else PercentBytes(Utf8(c))
  }

  /** The byte serializer: every character of the UTF-8 form of `s` is kept,
      turned into '+' (space) or percent-encoded. */
  function Enc(s: string): (r: string)
    ensures |r| >= |s|
    ensures forall i :: 0 <= i < |r| ==> IsEncodedChar(r[i])
    ensures (forall i :: 0 <= i < |s| ==> IsUnreserved(s[i])) ==> r == s
    ensures r == "" <==> s == ""
  {
    if |s| == 0 then "" else EncodeChar(s[0]) + Enc(s[1..])
  }

  // ---------------------------------------------------------------------
  // Decoding, the partner of Enc

  function HexValue(c: char): Option<int> {
    if '0' <= c <= '9' then Some(c as int - '0' as int)
    else if 'A' <= c <= 'F' then Some(c as int - 'A' as int + 10)
    else if 'a' <= c <= 'f' then Some(c as int - 'a' as int + 10)
    else None
  }

  /** Turns an encoded string back into the bytes it stands for. */
  function DecodeBytes(t: string): Option<seq<int>>
    decreases |t|
  {
    if |t| == 0 then Some([])
    else if t[0] == '%' then
      if |t| < 3 then None
      else
        match (HexValue(t[1]), HexValue(t[2]))
        case (Some(hi), Some(lo)) =>
          (match DecodeBytes(t[3..])
           case Some(rest) => Some([hi * 16 + lo] + rest)
           case None => None)
        case _ => None
    else if t[0] == '+' then
      match DecodeBytes(t[1..])
      case Some(rest) => Some([0x20] + rest)
      case None => None
    else if t[0] as int < 0x80 then
      match DecodeBytes(t[1..])
      case Some(rest) => Some([t[0] as int] + rest)
      case None => None
    else None
  }

  predicate IsContinuation(b: int) {
    0x80 <= b < 0xC0
  }

  predicate IsScalar(n: int) {
    (0 <= n < 0xD800) || (0xE000 <= n < 0x11_0000)
  }

  /** Decodes the first UTF-8 sequence of `bytes`: the character and the
      number of bytes it took. */
  function DecodeFirst(bytes: seq<int>): Option<(char, nat)>
    requires |bytes| > 0
  {
    var b0 := bytes[0];
    if 0 <= b0 < 0x80 then Some((b0 as char, 1))
    else if 0xC0 <= b0 < 0xE0 && |bytes| >= 2 && IsContinuation(bytes[1]) then
      var n := (b0 - 0xC0) * 0x40 + (bytes[1] - 0x80);
      if IsScalar(n) then Some((n as char, 2)) else None
    else if 0xE0 <= b0 < 0xF0 && |bytes| >= 3 && IsContinuation(bytes[1]) && IsContinuation(bytes[2]) then
      var n := (b0 - 0xE0) * 0x1000 + (bytes[1] - 0x80) * 0x40 + (bytes[2] - 0x80);
      if IsScalar(n) then Some((n as char, 3)) else None
    else if 0xF0 <= b0 < 0xF8 && |bytes| >= 4 && IsContinuation(bytes[1]) && IsContinuation(bytes[2]) && IsContinuation(bytes[3]) then
      var n := (b0 - 0xF0) * 0x4_0000 + (bytes[1] - 0x80) * 0x1000 + (bytes[2] - 0x80) * 0x40 + (bytes[3] - 0x80);
      if IsScalar(n) then Some((n as char, 4)) else None
    else None
  }

  function DecodeUtf8(bytes: seq<int>): Option<string>
    decreases |bytes|
  {
    if |bytes| == 0 then Some("")
    else
      match DecodeFirst(bytes)
      case None => None
      case Some((c, k)) =>
        if k == 0 || k > |bytes| then None
        else
          match DecodeUtf8(bytes[k..])
          case None => None
          case Some(rest) => Some([c] + rest)
  }

  /** Percent-decoding followed by UTF-8 decoding. */
  function Dec(t: string): Option<string> {
    match DecodeBytes(t)
    case None => None
    case Some(bytes) => DecodeUtf8(bytes)
  }

  function Utf8String(s: string): (bytes: seq<int>)
  {
    if |s| == 0 then [] else Utf8(s[0]) + Utf8String(s[1..])
  }

  lemma HexRoundTrip(d: int)
    requires 0 <= d < 16
    ensures HexValue(HexDigit(d)) == Some(d)
  {
  }

  lemma DecodePercentByte(b: int, rest: string)
    requires IsByte(b)
    requires DecodeBytes(rest).Some?
    ensures DecodeBytes(PercentByte(b) + rest) == Some([b] + DecodeBytes(rest).value)
  {
    var t := PercentByte(b) + rest;
    HexRoundTrip(b / 16);
    HexRoundTrip(b % 16);
    assert t[0] == '%' && t[1] == HexDigit(b / 16) && t[2] == HexDigit(b % 16);
    assert t[3..] == rest;
  }

  lemma DecodePercentBytes(bytes: seq<int>, rest: string)
    requires forall i :: 0 <= i < |bytes| ==> IsByte(bytes[i])
    requires DecodeBytes(rest).Some?
    ensures DecodeBytes(PercentBytes(bytes) + rest) == Some(bytes + DecodeBytes(rest).value)
    decreases |bytes|
  {
    if |bytes| == 0 {
      DecodeNoPercentBytes(bytes, rest);
    } else {
      DecodePercentBytes(bytes[1..], rest);
      DecodePercentBytesStep(bytes, rest);
    }
  }

  lemma DecodeNoPercentBytes(bytes: seq<int>, rest: string)
    requires |bytes| == 0
    requires DecodeBytes(rest).Some?
    ensures DecodeBytes(PercentBytes(bytes) + rest) == Some(bytes + DecodeBytes(rest).value)
  {
    assert PercentBytes(bytes) + rest == rest;
    assert bytes + DecodeBytes(rest).value == DecodeBytes(rest).value;
  }

  lemma DecodePercentBytesStep(bytes: seq<int>, rest: string)
    requires |bytes| > 0
    requires forall i :: 0 <= i < |bytes| ==> IsByte(bytes[i])
    requires DecodeBytes(rest).Some?
    requires DecodeBytes(PercentBytes(bytes[1..]) + rest) == Some(bytes[1..] + DecodeBytes(rest).value)
    ensures DecodeBytes(PercentBytes(bytes) + rest) == Some(bytes + DecodeBytes(rest).value)
  {
    var decodedRest := DecodeBytes(rest).value;
    var tail := PercentBytes(bytes[1..]) + rest;
    DecodePercentByte(bytes[0], tail);
    PercentBytesCons(bytes, rest);
    ConsConcat(bytes, decodedRest);
  }

  lemma ConsConcat<T>(xs: seq<T>, ys: seq<T>)
    requires |xs| > 0
    ensures [xs[0]] + (xs[1..] + ys) == xs + ys
  {
    assert [xs[0]] + xs[1..] == xs;
  }

  lemma PercentBytesCons(bytes: seq<int>, rest: string)
    requires |bytes| > 0
    requires forall i :: 0 <= i < |bytes| ==> IsByte(bytes[i])
    ensures PercentBytes(bytes) + rest == PercentByte(bytes[0]) + (PercentBytes(bytes[1..]) + rest)
  {
    SplitAssoc(PercentBytes(bytes), PercentByte(bytes[0]), PercentBytes(bytes[1..]), rest);
  }

  lemma SplitAssoc<T>(whole: seq<T>, a: seq<T>, b: seq<T>, c: seq<T>)
    requires whole == a + b
    ensures whole + c == a + (b + c)
  {
  }

  lemma DecodeEncodeChar(c: char, rest: string)
    requires DecodeBytes(rest).Some?
    ensures DecodeBytes(EncodeChar(c) + rest) == Some(Utf8(c) + DecodeBytes(rest).value)
  {
    if IsUnreserved(c) {
      assert ([c] + rest)[1..] == rest;
    } else if c == ' ' {
      assert ("+" + rest)[1..] == rest;
    } else {
      DecodePercentBytes(Utf8(c), rest);
    }
  }

  lemma {:induction false} DecodeBytesOfEnc(s: string)
    ensures DecodeBytes(Enc(s)) == Some(Utf8String(s))
    decreases |s|
  {
    if |s| > 0 {
      DecodeBytesOfEnc(s[1..]);
      DecodeEncodeChar(s[0], Enc(s[1..]));
    }
  }

  lemma DecodeFirstUtf8(c: char, rest: seq<int>)
    ensures DecodeFirst(Utf8(c) + rest) == Some((c, |Utf8(c)|))
  {
    var n := c as int;
    var bytes := Utf8(c) + rest;
    if n < 0x80 {
    } else if n < 0x800 {
      assert bytes[0] == 0xC0 + n / 0x40 && bytes[1] == 0x80 + n % 0x40;
      assert (n / 0x40) * 0x40 + n % 0x40 == n;
    } else if n < 0x1_0000 {
      var q := n / 0x40;
      assert bytes[0] == 0xE0 + n / 0x1000;
      assert n / 0x1000 == q / 0x40;
      assert (q / 0x40) * 0x40 + q % 0x40 == q;
      assert q * 0x40 + n % 0x40 == n;
    } else {
      var q := n / 0x40;
      var q2 := q / 0x40;
      assert n / 0x1000 == q2;
      assert n / 0x4_0000 == q2 / 0x40;
      assert (q2 / 0x40) * 0x40 + q2 % 0x40 == q2;
      assert q2 * 0x40 + q % 0x40 == q;
      assert q * 0x40 + n % 0x40 == n;
    }
  }

  lemma {:induction false} DecodeUtf8String(s: string)
    ensures DecodeUtf8(Utf8String(s)) == Some(s)
    decreases |s|
  {
    if |s| > 0 {
      var bytes := Utf8String(s);
      DecodeFirstUtf8(s[0], Utf8String(s[1..]));
      assert bytes[|Utf8(s[0])|..] == Utf8String(s[1..]);
      DecodeUtf8String(s[1..]);
      assert [s[0]] + s[1..] == s;
    }
  }

  /** Decoding undoes encoding. */
  lemma DecEnc(s: string)
    ensures Dec(Enc(s)) == Some(s)
  {
    DecodeBytesOfEnc(s);
    DecodeUtf8String(s);
  }

  /** Distinct strings never encode alike. */
  lemma EncInjective(a: string, b: string)
    ensures a != b ==> Enc(a) != Enc(b)
  {
    DecEnc(a);
    DecEnc(b);
  }

  // ---------------------------------------------------------------------
  // Serializer

  datatype Pair = Pair(key: string, value: string)

  /** A serializer writing into a `String`: the text so far and the position
      where the query part (the pairs) begins. */
  datatype Serializer = Serializer(target: string, start: nat)

  /** `Serializer::for_suffix`: appends after `start`, which must lie within
      the target. Text already past `start` counts as earlier pairs. */
  function ForSuffix(target: string, start: nat): (s: Serializer)
    requires start <= |target|
    ensures s.start <= |s.target| && Finish(s) == target
    ensures start == |target| ==> Pairs(s) == [] && Canonical(s)
  {
    Serializer(target, start)
  }

  /** `append_pair`: a '&' unless this is the first pair, then the encoded key,
      '=' and the encoded value. */
  function AppendPair(s: Serializer, key: string, value: string): (r: Serializer)
    requires s.start <= |s.target|
    ensures r.start == s.start && |s.target| <= |r.target|
    ensures r.target[..|s.target|] == s.target
    ensures Pairs(r) == Pairs(s) + [Pair(Enc(key), Enc(value))]
    ensures Canonical(s) ==> Canonical(r)
  {
    var sep := if |s.target| > s.start then "&" else "";
    var r := Serializer(s.target + sep + EncodePair(key, value), s.start);
    AppendPairParses(s, key, value, sep, r);
    AppendPairKeepsCanonical(s, key, value, sep, r);
    r
  }

  /** `finish`: the text written. */
  function Finish(s: Serializer): string {
    s.target
  }

  function EncodePair(key: string, value: string): string {
    Enc(key) + "=" + Enc(value)
  }

  // ---------------------------------------------------------------------
  // Parsing serialized pairs, the partner of the serializer

  function LastIndexOf(s: string, c: char): (r: Option<nat>)
    ensures r.Some? ==> r.value < |s| && s[r.value] == c && forall j :: r.value < j < |s| ==> s[j] != c
    ensures r.None? ==> forall j :: 0 <= j < |s| ==> s[j] != c
    decreases |s|
  {
    if |s| == 0 then None
    else if s[|s| - 1] == c then Some(|s| - 1)
    else LastIndexOf(s[..|s| - 1], c)
  }

  function FirstIndexOf(s: string, c: char): (r: Option<nat>)
    ensures r.Some? ==> r.value < |s| && s[r.value] == c && forall j :: 0 <= j < r.value ==> s[j] != c
    ensures r.None? ==> forall j :: 0 <= j < |s| ==> s[j] != c
    decreases |s|
  {
    if |s| == 0 then None
    else if s[0] == c then Some(0)
    else
      match FirstIndexOf(s[1..], c)
      case None => None
      case Some(i) => Some(i + 1)
  }

  /** Splits one `key=value` segment at its first '='. */
  function SplitPair(segment: string): Pair {
    match FirstIndexOf(segment, '=')
    case None => Pair(segment, "")
    case Some(i) => Pair(segment[..i], segment[i + 1..])
  }

  /** Splits a query string at every '&' into its (still encoded) pairs. */
  function ParseQuery(q: string): seq<Pair>
    decreases |q|
  {
    if q == "" then []
    else
      match LastIndexOf(q, '&')
      case None => [SplitPair(q)]
      case Some(i) => ParseQuery(q[..i]) + [SplitPair(q[i + 1..])]
  }

  /** The pairs a serializer has written so far, as the parser reads them. */
  function Pairs(s: Serializer): seq<Pair>
    requires s.start <= |s.target|
  {
    ParseQuery(s.target[s.start..])
  }

  /** The query part of a serializer: everything written after `start`. */
  function Query(s: Serializer): string
    requires s.start <= |s.target|
  {
    s.target[s.start..]
  }

  /** The canonical text of a list of pairs: `key=value` for each, with one
      '&' between neighbours and none before the first or after the last. */
  function Joined(ps: seq<Pair>): string
    decreases |ps|
  {
    if |ps| == 0 then ""
    else if |ps| == 1 then ps[0].key + "=" + ps[0].value
    else Joined(ps[..|ps| - 1]) + "&" + (ps[|ps| - 1].key + "=" + ps[|ps| - 1].value)
  }

  /** A serializer whose query part is exactly the canonical text of the
      pairs it reads back as: no stray '&' anywhere. */
  predicate Canonical(s: Serializer)
    requires s.start <= |s.target|
  {
    Query(s) == Joined(Pairs(s))
  }

  lemma JoinedSnoc(ps: seq<Pair>, p: Pair)
    ensures Joined(ps + [p]) == (if ps == [] then "" else Joined(ps) + "&") + (p.key + "=" + p.value)
  {
    var qs := ps + [p];
    assert qs[..|qs| - 1] == ps;
    if ps == [] {
      assert qs == [p];
    }
  }

  lemma AppendPairKeepsCanonical(s: Serializer, key: string, value: string, sep: string, r: Serializer)
    requires s.start <= |s.target|
    requires sep == if |s.target| > s.start then "&" else ""
    requires r == Serializer(s.target + sep + EncodePair(key, value), s.start)
    requires Pairs(r) == Pairs(s) + [Pair(Enc(key), Enc(value))]
    ensures Canonical(s) ==> Canonical(r)
  {
    if Canonical(s) {
      var e := EncodePair(key, value);
      QuerySuffix(s.target, s.start, sep, e);
      assert Query(r) == Query(s) + sep + e;
      JoinedSnoc(Pairs(s), Pair(Enc(key), Enc(value)));
      if sep == "" {
        assert Query(s) == "";
        assert Pairs(s) == [];
      } else {
        assert Query(s) != "";
        assert Pairs(s) != [];
      }
    }
  }

  lemma SplitEncodedPair(key: string, value: string)
    ensures SplitPair(EncodePair(key, value)) == Pair(Enc(key), Enc(value))
  {
    var e := EncodePair(key, value);
    var k := Enc(key);
    assert e[|k|] == '=';
    assert forall j :: 0 <= j < |k| ==> e[j] == k[j] && IsEncodedChar(k[j]);
    assert FirstIndexOf(e, '=') == Some(|k|);
    assert e[..|k|] == k;
    assert e[|k| + 1..] == Enc(value);
  }

  lemma EncodedPairHasNoAmpersand(key: string, value: string)
    ensures |EncodePair(key, value)| > 0
    ensures forall j :: 0 <= j < |EncodePair(key, value)| ==> EncodePair(key, value)[j] != '&'
  {
    var k := Enc(key);
    var v := Enc(value);
    assert NoAmpersand(k + "=");
    ConcatNoAmpersand(k + "=", v);
  }

  predicate NoAmpersand(s: string) {
    forall j :: 0 <= j < |s| ==> s[j] != '&'
  }

  lemma ConcatNoAmpersand(a: string, b: string)
    requires NoAmpersand(a)
    requires forall j :: 0 <= j < |b| ==> IsEncodedChar(b[j])
    ensures NoAmpersand(a + b)
  {
    forall j | 0 <= j < |a + b|
      ensures (a + b)[j] != '&'
    {
      if j >= |a| {
        assert (a + b)[j] == b[j - |a|];
      }
    }
  }

  lemma AppendPairParses(s: Serializer, key: string, value: string, sep: string, r: Serializer)
    requires s.start <= |s.target|
    requires sep == if |s.target| > s.start then "&" else ""
    requires r == Serializer(s.target + sep + EncodePair(key, value), s.start)
    ensures |s.target| <= |r.target| && r.target[..|s.target|] == s.target
    ensures ParseQuery(r.target[r.start..]) == ParseQuery(s.target[s.start..]) + [Pair(Enc(key), Enc(value))]
  {
    var e := EncodePair(key, value);
    var oldQuery := s.target[s.start..];
    EncodedPairHasNoAmpersand(key, value);
    SplitEncodedPair(key, value);
    QuerySuffix(s.target, s.start, sep, e);
    ParseAppended(oldQuery, sep, e);
  }

  lemma QuerySuffix(target: string, start: nat, sep: string, e: string)
    requires start <= |target|
    ensures (target + sep + e)[start..] == target[start..] + sep + e
    ensures (target + sep + e)[..|target|] == target
  {
  }

  lemma ParseAppended(oldQuery: string, sep: string, e: string)
    requires sep == if |oldQuery| > 0 then "&" else ""
    requires |e| > 0 && forall j :: 0 <= j < |e| ==> e[j] != '&'
    ensures ParseQuery(oldQuery + sep + e) == ParseQuery(oldQuery) + [SplitPair(e)]
  {
    if sep == "" {
      ParseFirstPair(oldQuery, e);
    } else {
      ParseNextPair(oldQuery, e);
    }
  }

  lemma ParseFirstPair(oldQuery: string, e: string)
    requires oldQuery == []
    requires |e| > 0 && forall j :: 0 <= j < |e| ==> e[j] != '&'
    ensures ParseQuery(oldQuery + "" + e) == ParseQuery(oldQuery) + [SplitPair(e)]
  {
    assert oldQuery + "" + e == e;
  }

  lemma ParseNextPair(oldQuery: string, e: string)
    requires forall j :: 0 <= j < |e| ==> e[j] != '&'
    ensures ParseQuery(oldQuery + "&" + e) == ParseQuery(oldQuery) + [SplitPair(e)]
  {
    var q := oldQuery + "&" + e;
    LastSeparator(oldQuery, e);
    assert q[..|oldQuery|] == oldQuery;
    assert q[|oldQuery| + 1..] == e;
  }

  lemma {:induction false} LastSeparator(a: string, e: string)
    requires forall j :: 0 <= j < |e| ==> e[j] != '&'
    ensures LastIndexOf(a + "&" + e, '&') == Some(|a|)
    decreases |e|
  {
    var q := a + "&" + e;
    if e != [] {
      var e' := e[..|e| - 1];
      assert q[|q| - 1] == e[|e| - 1];
      assert q[..|q| - 1] == a + "&" + e';
      LastSeparator(a, e');
    } else {
      assert q == a + ['&'];
    }
  }

  /** Everything a serializer appends is read back by the parser and
      decodes to the key and value given to it. */
  lemma AppendPairReadsBack(s: Serializer, key: string, value: string)
    requires s.start <= |s.target|
    ensures var p := Pairs(AppendPair(s, key, value))[|Pairs(s)|];
      Dec(p.key) == Some(key) && Dec(p.value) == Some(value)
  {
    DecEnc(key);
    DecEnc(value);
  }
}
