/// The query strings the search page navigates to: `URLSearchParams.toString()`
/// (the application/x-www-form-urlencoded serializer of the WHATWG URL
/// standard: UTF-8, then percent-encoding of every byte outside
/// `*-._0-9A-Za-z`, with space written as `+`), and the matching parser
/// behind `searchParams.get(name)` on the next page.
module UrlEncoding {
  import opened Base

  newtype byte = x: int | 0 <= x < 256

  // ---------------------------------------------------------------- UTF-8

  /** The UTF-8 encoding of one Unicode scalar value. */
  function Utf8Char(c: char): (bs: seq<byte>)
    ensures 1 <= |bs| <= 4
    ensures (|bs| == 1) <==> c as int < 0x80
    ensures c as int < 0x80 ==> bs[0] as int == c as int
  {
    var n := c as int;
    var q1 := n / 64;
    var q2 := q1 / 64;
    var q3 := q2 / 64;
    if n < 0x80 then [n as byte]
    else if n < 0x800 then [(0xC0 + q1) as byte, (0x80 + n % 64) as byte]
    else if n < 0x10000 then [(0xE0 + q2) as byte, (0x80 + q1 % 64) as byte, (0x80 + n % 64) as byte]
    else [(0xF0 + q3) as byte, (0x80 + q2 % 64) as byte, (0x80 + q1 % 64) as byte, (0x80 + n % 64) as byte]
  }

  function Utf8(s: string): seq<byte> {
    if s == [] then [] else Utf8Char(s[0]) + Utf8(s[1..])
  }

  /** The length of the UTF-8 sequence a lead byte opens (0: not a lead byte). */
  function SequenceLength(lead: byte): nat {
    if lead < 0x80 then 1
    else if lead < 0xC0 then 0
    else if lead < 0xE0 then 2
    else if lead < 0xF0 then 3
    else if lead < 0xF8 then 4
    else 0
  }

  predicate IsContinuation(b: byte) {
    0x80 <= b < 0xC0
  }

  predicate IsScalar(v: int) {
    0 <= v < 0xD800 || 0xE000 <= v < 0x110000
  }

  /** The code point carried by one UTF-8 sequence. */
  function ScalarOf(bs: seq<byte>): int
    requires 1 <= |bs| <= 4
  {
    var lead := bs[0] as int;
    if |bs| == 1 then lead
    else if |bs| == 2 then (lead - 0xC0) * 64 + (bs[1] as int - 0x80)
    else if |bs| == 3 then ((lead - 0xE0) * 64 + (bs[1] as int - 0x80)) * 64 + (bs[2] as int - 0x80)
    else (((lead - 0xF0) * 64 + (bs[1] as int - 0x80)) * 64 + (bs[2] as int - 0x80)) * 64 + (bs[3] as int - 0x80)
  }

  /** The least code point a sequence of n bytes may carry; a smaller one is an
      overlong form, which a decoder must refuse. */
  function MinScalar(n: nat): int {
    if n <= 1 then 0 else if n == 2 then 0x80 else if n == 3 then 0x800 else 0x10000
  }

  /** UTF-8 decoding; None on a malformed sequence: a stray or missing
      continuation byte, an overlong form, a surrogate or a value past U+10FFFF. */
  function DecodeUtf8(bs: seq<byte>): Option<string>
    decreases |bs|
  {
    if bs == [] then Some([])
    else
      var n := SequenceLength(bs[0]);
      if n == 0 || |bs| < n || (exists i :: 1 <= i < n && !IsContinuation(bs[i])) then None
      else
        var v := ScalarOf(bs[..n]);
        if !IsScalar(v) || v < MinScalar(n) then None
        else match DecodeUtf8(bs[n..])
          case None => None
          case Some(rest) => Some([v as char] + rest)
  }

  lemma Utf8CharShape(c: char)
    ensures var bs := Utf8Char(c);
      SequenceLength(bs[0]) == |bs| && (forall i :: 1 <= i < |bs| ==> IsContinuation(bs[i])) && ScalarOf(bs) == c as int
      && c as int >= MinScalar(|bs|)
  {
    var n := c as int;
    var q1 := n / 64;
    var q2 := q1 / 64;
    var q3 := q2 / 64;
    assert n == q1 * 64 + n % 64;
    assert q1 == q2 * 64 + q1 % 64;
    assert q2 == q3 * 64 + q2 % 64;
  }

  lemma Utf8CharDecodes(c: char, rest: seq<byte>)
    ensures DecodeUtf8(Utf8Char(c) + rest) == match DecodeUtf8(rest) case None => None case Some(r) => Some([c] + r)
  {
    var e := Utf8Char(c);
    var bs := e + rest;
    Utf8CharShape(c);
    assert bs[0] == e[0];
    assert bs[..|e|] == e;
    assert bs[|e|..] == rest;
    assert forall i :: 1 <= i < |e| ==> bs[i] == e[i];
  }

  /** The overlong two-byte form of U+0000 is refused. */
  lemma OverlongRefused()
    ensures DecodeUtf8([0xC0, 0x80]) == None
  {
    assert ScalarOf([0xC0, 0x80]) == 0;
  }

  /** UTF-8 decoding undoes UTF-8 encoding. */
  lemma {:induction false} DecodeUtf8OfUtf8(s: string)
    ensures DecodeUtf8(Utf8(s)) == Some(s)
  {
    if s != [] {
      Utf8CharDecodes(s[0], Utf8(s[1..]));
      DecodeUtf8OfUtf8(s[1..]);
      assert [s[0]] + s[1..] == s;
    }
  }

  // ------------------------------------------------------ percent-encoding

  /** Bytes the form serializer writes as themselves: `*`, `-`, `.`, `_`, digits and ASCII letters. */
  predicate Unreserved(b: byte) {
    b == 0x2A || b == 0x2D || b == 0x2E || 0x30 <= b <= 0x39 || 0x41 <= b <= 0x5A || b == 0x5F || 0x61 <= b <= 0x7A
  }

  /** The upper-case hexadecimal digit of d. */
  function HexDigit(d: int): (c: char)
    requires 0 <= d < 16
    ensures IsHexDigit(c) && HexValue(c) == d
  {
    if d < 10 then (48 + d) as char else (55 + d) as char
  }

  predicate IsHexDigit(c: char) {
    '0' <= c <= '9' || 'A' <= c <= 'F' || 'a' <= c <= 'f'
  }

  function HexValue(c: char): (d: int)
    requires IsHexDigit(c)
    ensures 0 <= d < 16
  {
    if c <= '9' then c as int - 48 else if c <= 'F' then c as int - 55 else c as int - 87
  }

  function EncodeByte(b: byte): string {
    if b == 0x20 then "+"
    else if Unreserved(b) then [b as int as char]
    else ['%', HexDigit(b as int / 16), HexDigit(b as int % 16)]
  }

  function EncodeBytes(bs: seq<byte>): string {
    if bs == [] then [] else EncodeByte(bs[0]) + EncodeBytes(bs[1..])
  }

  /** How `URLSearchParams` writes one name or value. */
  function Encode(s: string): (text: string)
    ensures Separatorless(text)
  {
    EncodeBytesSeparatorless(Utf8(s));
    EncodeBytes(Utf8(s))
  }

  /** The percent-decoding of the form parser: `+` is a space, `%XX` a byte,
      any other character its own UTF-8 bytes. */
  function PercentDecode(s: string): seq<byte>
    decreases |s|
  {
    if s == [] then []
    else if s[0] == '+' then [0x20] + PercentDecode(s[1..])
    else if s[0] == '%' && |s| >= 3 && IsHexDigit(s[1]) && IsHexDigit(s[2]) then
      [(HexValue(s[1]) * 16 + HexValue(s[2])) as byte] + PercentDecode(s[3..])
    else Utf8Char(s[0]) + PercentDecode(s[1..])
  }

  /** How the next page reads back one name or value. */
  function DecodeComponent(s: string): Option<string> {
    DecodeUtf8(PercentDecode(s))
  }

  lemma EncodeByteDecodes(b: byte, t: string)
    ensures PercentDecode(EncodeByte(b) + t) == [b] + PercentDecode(t)
  {
    var e := EncodeByte(b);
    var s := e + t;
    if b == 0x20 {
      assert s[1..] == t;
    } else if Unreserved(b) {
      assert s[1..] == t;
    } else {
      var hi, lo := b as int / 16, b as int % 16;
      assert s[0] == '%' && s[1] == HexDigit(hi) && s[2] == HexDigit(lo);
      assert s[3..] == t;
      assert PercentDecode(s) == [(hi * 16 + lo) as byte] + PercentDecode(t);
    }
  }

  lemma {:induction false} PercentDecodeOfEncodeBytes(bs: seq<byte>)
    ensures PercentDecode(EncodeBytes(bs)) == bs
  {
    if bs != [] {
      EncodeByteDecodes(bs[0], EncodeBytes(bs[1..]));
      PercentDecodeOfEncodeBytes(bs[1..]);
    }
  }

  /** Reading back a written name or value gives the original string. */
  lemma DecodeOfEncode(s: string)
    ensures DecodeComponent(Encode(s)) == Some(s)
  {
    PercentDecodeOfEncodeBytes(Utf8(s));
    DecodeUtf8OfUtf8(s);
  }

  /** No written name or value contains the separators `&` and `=`. */
  predicate Separatorless(s: string) {
    forall i :: 0 <= i < |s| ==> s[i] != '&' && s[i] != '='
  }

  lemma {:induction false} EncodeBytesSeparatorless(bs: seq<byte>)
    ensures Separatorless(EncodeBytes(bs))
  {
    if bs != [] {
      var b := bs[0];
      assert Separatorless(EncodeByte(b)) by {
        if b != 0x20 && !Unreserved(b) {
          assert HexDigit(b as int / 16) != '&' && HexDigit(b as int / 16) != '=';
          assert HexDigit(b as int % 16) != '&' && HexDigit(b as int % 16) != '=';
        }
      }
      EncodeBytesSeparatorless(bs[1..]);
    }
  }

  lemma EncodeSeparatorless(s: string)
    ensures Separatorless(Encode(s))
  {
    EncodeBytesSeparatorless(Utf8(s));
  }

  predicate UnreservedChar(c: char) {
    c as int < 0x80 && Unreserved(c as int as byte)
  }

  /** Strings of digits, ASCII letters and `*-._` are written unchanged
      (a yyyy-MM-dd date among them). */
  lemma {:induction false} EncodeUnreserved(s: string)
    requires forall i :: 0 <= i < |s| ==> UnreservedChar(s[i])
    ensures Encode(s) == s
  {
    if s != [] {
      EncodeUnreserved(s[1..]);
      assert [s[0]] + s[1..] == s;
    }
  }

  // ------------------------------------------------------------ the query

  type Param = (string, string)

  function Pair(p: Param): string {
    Encode(p.0) + "=" + Encode(p.1)
  }

  /** `params.toString()`: name=value pairs in insertion order, joined by `&`. */
  function Serialize(ps: seq<Param>): (q: string)
    ensures q == "" <==> ps == []
  {
    if ps == [] then ""
    else if |ps| == 1 then Pair(ps[0])
    else Pair(ps[0]) + "&" + Serialize(ps[1..])
  }

  function FirstIndex(s: string, c: char): (r: Option<nat>)
    ensures r.Some? ==> r.value < |s| && s[r.value] == c && forall j :: 0 <= j < r.value ==> s[j] != c
    ensures r.None? ==> forall j :: 0 <= j < |s| ==> s[j] != c
  {
    if s == [] then None
    else if s[0] == c then Some(0)
    else match FirstIndex(s[1..], c)
      case None => None
      case Some(i) => Some(i + 1)
  }

  /** `s.split(c)`. */
  function SplitOn(s: string, c: char): (parts: seq<string>)
    ensures |parts| >= 1
    decreases |s|
  {
    match FirstIndex(s, c)
    case None => [s]
    case Some(i) => [s[..i]] + SplitOn(s[i + 1..], c)
  }

  /** One `name=value` piece; a piece without `=` is a name with an empty value. */
  function ParsePiece(piece: string): Option<Param> {
    var raw: Param := match FirstIndex(piece, '=')
      case None => (piece, "")
      case Some(i) => (piece[..i], piece[i + 1..]);
    match (DecodeComponent(raw.0), DecodeComponent(raw.1))
    case (Some(n), Some(v)) => Some((n, v))
    case _ => None
  }

  function ParsePieces(pieces: seq<string>): (r: Option<seq<Param>>)
    ensures r.Some? ==> |r.value| <= |pieces|
  {
    if pieces == [] then Some([])
    else if pieces[0] == "" then ParsePieces(pieces[1..])
    else match (ParsePiece(pieces[0]), ParsePieces(pieces[1..]))
      case (Some(p), Some(rest)) => Some([p] + rest)
      case _ => None
  }

  /** The form parser: split on `&`, skip empty pieces, split each piece at its first `=`. */
  function ParseQuery(q: string): (r: Option<seq<Param>>)
    ensures q == "" ==> r == Some([])
    ensures r.Some? ==> |r.value| <= |SplitOn(q, '&')|
  {
    assert q == "" ==> ParsePieces(SplitOn(q, '&')) == Some([]) by {
      if q == "" {
        assert SplitOn(q, '&') == [""];
        assert [""][1..] == [];
      }
    }
    ParsePieces(SplitOn(q, '&'))
  }

  /** `searchParams.get(name)`: the value of the first pair with that name. */
  function Get(ps: seq<Param>, name: string): (r: Option<string>)
    ensures r.Some? <==> exists i :: 0 <= i < |ps| && ps[i].0 == name
    ensures r.Some? ==> exists i :: 0 <= i < |ps| && ps[i] == (name, r.value)
  {
    if ps == [] then None
    else if ps[0].0 == name then Some(ps[0].1)
    else
      var r := Get(ps[1..], name);
      assert forall i :: 0 <= i < |ps| - 1 ==> ps[1..][i] == ps[i + 1];
      r
  }

  /** A lookup in two lists of pairs finds the first list's pair first. */
  lemma {:induction false} GetAppend(a: seq<Param>, b: seq<Param>, name: string)
    ensures Get(a + b, name) == if Get(a, name).Some? then Get(a, name) else Get(b, name)
  {
    if a != [] {
      assert (a + b)[1..] == a[1..] + b;
      GetAppend(a[1..], b, name);
    } else {
      assert a + b == b;
    }
  }

  /** `params.delete(name)`. */
  function WithoutName(ps: seq<Param>, name: string): (r: seq<Param>)
    ensures Get(r, name) == None
    ensures forall n :: n != name ==> Get(r, n) == Get(ps, n)
  {
    if ps == [] then []
    else if ps[0].0 == name then WithoutName(ps[1..], name)
    else [ps[0]] + WithoutName(ps[1..], name)
  }

  /** `params.set(name, value)`: the first pair with that name takes the new value
      and the later ones go; without such a pair, the pair is appended. */
  function SetParam(ps: seq<Param>, name: string, value: string): (r: seq<Param>)
    ensures Get(r, name) == Some(value)
    ensures forall n :: n != name ==> Get(r, n) == Get(ps, n)
    ensures (forall i :: 0 <= i < |ps| ==> ps[i].0 != name) ==> r == ps + [(name, value)]
  {
    if ps == [] then [(name, value)]
    else if ps[0].0 == name then [(name, value)] + WithoutName(ps[1..], name)
    else
      var r := [ps[0]] + SetParam(ps[1..], name, value);
      assert (forall i :: 0 <= i < |ps| ==> ps[i].0 != name) ==> r == ps + [(name, value)] by {
        if forall i :: 0 <= i < |ps| ==> ps[i].0 != name {
          assert forall i :: 0 <= i < |ps[1..]| ==> ps[1..][i].0 != name by {
            forall i | 0 <= i < |ps[1..]| ensures ps[1..][i].0 != name {
              assert ps[1..][i] == ps[i + 1];
            }
          }
          assert [ps[0]] + (ps[1..] + [(name, value)]) == ps + [(name, value)];
        }
      }
      r
  }

  lemma {:induction false} FirstIndexAfterSeparatorless(a: string, c: char, b: string)
    requires forall i :: 0 <= i < |a| ==> a[i] != c
    ensures FirstIndex(a + [c] + b, c) == Some(|a|)
  {
    if a != [] {
      assert (a + [c] + b)[1..] == a[1..] + [c] + b;
      FirstIndexAfterSeparatorless(a[1..], c, b);
    }
  }

  lemma PairParses(p: Param)
    ensures Pair(p) != "" && ParsePiece(Pair(p)) == Some(p)
  {
    var k, v := Encode(p.0), Encode(p.1);
    EncodeSeparatorless(p.0);
    FirstIndexAfterSeparatorless(k, '=', v);
    assert Pair(p)[..|k|] == k;
    assert Pair(p)[|k| + 1..] == v;
    DecodeOfEncode(p.0);
    DecodeOfEncode(p.1);
  }

  lemma PairSeparatorless(p: Param)
    ensures forall i :: 0 <= i < |Pair(p)| ==> Pair(p)[i] != '&'
  {
    EncodeSeparatorless(p.0);
    EncodeSeparatorless(p.1);
  }

  lemma {:induction false} SplitSerialized(ps: seq<Param>)
    requires ps != []
    ensures SplitOn(Serialize(ps), '&') == seq(|ps|, i requires 0 <= i < |ps| => Pair(ps[i]))
  {
    PairSeparatorless(ps[0]);
    if |ps| == 1 {
      assert FirstIndex(Pair(ps[0]), '&') == None;
    } else {
      FirstIndexAfterSeparatorless(Pair(ps[0]), '&', Serialize(ps[1..]));
      var s := Serialize(ps);
      assert s[..|Pair(ps[0])|] == Pair(ps[0]);
      assert s[|Pair(ps[0])| + 1..] == Serialize(ps[1..]);
      SplitSerialized(ps[1..]);
    }
  }

  lemma {:induction false} ParsePairs(ps: seq<Param>)
    ensures ParsePieces(seq(|ps|, i requires 0 <= i < |ps| => Pair(ps[i]))) == Some(ps)
  {
    var pieces := seq(|ps|, i requires 0 <= i < |ps| => Pair(ps[i]));
    if ps != [] {
      PairParses(ps[0]);
      assert pieces[1..] == seq(|ps[1..]|, i requires 0 <= i < |ps[1..]| => Pair(ps[1..][i]));
      ParsePairs(ps[1..]);
      assert [ps[0]] + ps[1..] == ps;
    }
  }

  /** The next page reads back exactly the pairs that were serialized, in order. */
  lemma ParseSerialize(ps: seq<Param>)
    ensures ParseQuery(Serialize(ps)) == Some(ps)
  {
    if ps == [] {
      assert SplitOn("", '&') == [""];
    } else {
      SplitSerialized(ps);
      ParsePairs(ps);
    }
  }
}
