/**
  UTF-8 text as package/konoha.string/string_glue.h reads it: by the table of lead bytes in
  include/konoha2/klib.h:161-178, which has the lengths of section 3 of RFC 3629 and still
  those of five and six bytes of section 2 of RFC 2279.
 */
module Utf8 {

  type byte = b: int | 0 <= b < 256

  /** _utf8len: the length of the character that a byte starts, or 0 if it starts none. */
  function Utf8Len(b: byte): nat {
    if b < 0x80 then 1
    else if b < 0xC2 then 0
    else if b < 0xE0 then 2
    else if b < 0xF0 then 3
    else if b < 0xF8 then 4
    else if b < 0xFC then 5
    else if b < 0xFE then 6
    else 0
  }

  /** A byte inside a character. */
  predicate IsTail(b: byte) {
    0x80 <= b < 0xC0
  }

  /** A byte that starts a character, which all but the terminating NUL is part of. */
  predicate IsLead(b: byte) {
    b != 0 && Utf8Len(b) > 0
  }

  /** One character: a lead byte and the tail bytes it calls for. */
  predicate IsChar(c: seq<byte>) {
    c != [] && IsLead(c[0]) && |c| == Utf8Len(c[0]) && forall i | 1 <= i < |c| :: IsTail(c[i])
  }

  /** Well-formed text: characters, one after the other. */
  predicate WF(s: seq<byte>) {
    s == [] || (Utf8Len(s[0]) <= |s| && IsLead(s[0]) && IsChar(s[..Utf8Len(s[0])]) && WF(s[Utf8Len(s[0])..]))
  }

  /** The characters of a text. */
  function Chars(s: seq<byte>): (cs: seq<seq<byte>>)
    requires WF(s)
  {
    if s == [] then [] else [s[..Utf8Len(s[0])]] + Chars(s[Utf8Len(s[0])..])
  }

  /** Characters put together. */
  function Flatten(cs: seq<seq<byte>>): seq<byte> {
    if cs == [] then [] else cs[0] + Flatten(cs[1..])
  }

  // ---------------------------------------------------------------- texts and characters correspond

  lemma {:induction false} CharsSplit(s: seq<byte>)
    requires WF(s) && s != []
    ensures var n := Utf8Len(s[0]);
      0 < n <= |s| && IsChar(s[..n]) && WF(s[n..]) && Chars(s) == [s[..n]] + Chars(s[n..])
  {
  }

  lemma {:induction false} FlattenCons(c: seq<byte>, cs: seq<seq<byte>>)
    ensures Flatten([c] + cs) == c + Flatten(cs)
  {
    assert ([c] + cs)[1..] == cs;
  }

  lemma {:induction false} CharsAre(s: seq<byte>)
    requires WF(s)
    ensures forall k | 0 <= k < |Chars(s)| :: IsChar(Chars(s)[k])
    ensures |Chars(s)| <= |s|
  {
    if s != [] {
      CharsSplit(s);
      var rest := s[Utf8Len(s[0])..];
      CharsAre(rest);
      forall k | 0 <= k < |Chars(s)| ensures IsChar(Chars(s)[k]) {
        if k > 0 { assert Chars(s)[k] == Chars(rest)[k-1]; }
      }
    }
  }

  lemma {:induction false} CharsRebuild(s: seq<byte>)
    requires WF(s)
    ensures Flatten(Chars(s)) == s
  {
    if s != [] {
      CharsSplit(s);
      var c, rest := s[..Utf8Len(s[0])], s[Utf8Len(s[0])..];
      CharsRebuild(rest);
      FlattenCons(c, Chars(rest));
    }
  }

  lemma {:induction false} FlattenChars(s: seq<byte>)
    requires WF(s)
    ensures Flatten(Chars(s)) == s
    ensures forall k | 0 <= k < |Chars(s)| :: IsChar(Chars(s)[k])
    ensures |Chars(s)| <= |s|
  {
    CharsRebuild(s);
    CharsAre(s);
  }

  lemma {:induction false} CharsFlatten(cs: seq<seq<byte>>)
    requires forall k | 0 <= k < |cs| :: IsChar(cs[k])
    ensures WF(Flatten(cs)) && Chars(Flatten(cs)) == cs
  {
    if cs != [] {
      CharsFlatten(cs[1..]);
      var s := Flatten(cs);
      var n := |cs[0]|;
      assert s[0] == cs[0][0];
      assert s[..n] == cs[0] && s[n..] == Flatten(cs[1..]);
    }
  }

  lemma {:induction false} FlattenAppend(cs: seq<seq<byte>>, ds: seq<seq<byte>>)
    ensures Flatten(cs + ds) == Flatten(cs) + Flatten(ds)
  {
    if cs == [] {
      assert cs + ds == ds;
    } else {
      assert (cs + ds)[1..] == cs[1..] + ds;
      FlattenAppend(cs[1..], ds);
    }
  }

  /** Text lengths add up. */
  lemma {:induction false} CharsAppend(s: seq<byte>, t: seq<byte>)
    requires WF(s) && WF(t)
    ensures WF(s + t) && Chars(s + t) == Chars(s) + Chars(t)
  {
    FlattenChars(s);
    FlattenChars(t);
    FlattenAppend(Chars(s), Chars(t));
    CharsFlatten(Chars(s) + Chars(t));
  }

  lemma FlattenOne(c: seq<byte>)
    ensures Flatten([c]) == c
  {
    var none: seq<seq<byte>> := [];
    assert [c][1..] == none;
    assert c + Flatten(none) == c;
  }

  lemma {:induction false} OneChar(c: seq<byte>)
    requires IsChar(c)
    ensures WF(c) && Chars(c) == [c]
  {
    CharsFlatten([c]);
    FlattenOne(c);
  }

  /** Well-formed text has no NUL in it. */
  lemma {:induction false} NoNul(s: seq<byte>)
    requires WF(s)
    ensures forall i | 0 <= i < |s| :: s[i] != 0
  {
    if s != [] {
      var n := Utf8Len(s[0]);
      NoNul(s[n..]);
      forall i | 0 <= i < |s| ensures s[i] != 0 {
        if i < n { assert s[..n][i] == s[i]; } else { assert s[n..][i-n] == s[i]; }
      }
    }
  }

  // ---------------------------------------------------------------- self-synchronisation

  lemma TakeDrop<T>(h: seq<T>, n: nat, p: nat)
    requires n <= p <= |h|
    ensures h[..p] == h[..n] + h[n..][..p-n] && h[p..] == h[n..][p-n..]
  {
  }

  lemma {:induction false} NoLeadInside(h: seq<byte>, p: nat)
    requires WF(h) && h != [] && 0 < p < Utf8Len(h[0]) <= |h|
    ensures !IsLead(h[p])
  {
    assert IsTail(h[..Utf8Len(h[0])][p]);
  }

  // ---------------------------------------------------------------- the table is that of UTF-8

  /** A character number, other than that of NUL, in the range of section 2 of RFC 2279. */
  type CodePoint = c: int | 0 < c < 0x8000_0000 witness 1

  /** Its encoding (section 3 of RFC 3629 for one to four bytes, section 2 of RFC 2279 for five
      and six): six bits to each byte after the first. */
  function Encode(c: CodePoint): seq<byte> {
    if c < 0x80 then [c]
    else if c < 0x800 then [0xC0 + c / 0x40, 0x80 + c % 0x40]
    else if c < 0x1_0000 then [0xE0 + c / 0x1000, 0x80 + c / 0x40 % 0x40, 0x80 + c % 0x40]
    else if c < 0x20_0000 then
      [0xF0 + c / 0x4_0000, 0x80 + c / 0x1000 % 0x40, 0x80 + c / 0x40 % 0x40, 0x80 + c % 0x40]
    else if c < 0x400_0000 then
      [0xF8 + c / 0x100_0000, 0x80 + c / 0x4_0000 % 0x40, 0x80 + c / 0x1000 % 0x40, 0x80 + c / 0x40 % 0x40,
       0x80 + c % 0x40]
    else
      [0xFC + c / 0x4000_0000, 0x80 + c / 0x100_0000 % 0x40, 0x80 + c / 0x4_0000 % 0x40, 0x80 + c / 0x1000 % 0x40,
       0x80 + c / 0x40 % 0x40, 0x80 + c % 0x40]
  }

  /** Every encoding is a character. */
  lemma EncodeIsChar(c: CodePoint)
    ensures IsChar(Encode(c))
  {
  }

  /** A number whose encoding starts with byte b, if there is one. */
  function Starting(b: byte): int {
    if b < 0x80 then b
    else if b < 0xE0 then (b - 0xC0) * 0x40
    else if b < 0xF0 then if b == 0xE0 then 0x800 else (b - 0xE0) * 0x1000
    else if b < 0xF8 then if b == 0xF0 then 0x1_0000 else (b - 0xF0) * 0x4_0000
    else if b < 0xFC then if b == 0xF8 then 0x20_0000 else (b - 0xF8) * 0x100_0000
    else if b == 0xFC then 0x400_0000
    else (b - 0xFC) * 0x4000_0000
  }

  ghost predicate Starts(b: byte, c: CodePoint) {
    Encode(c)[0] == b
  }

  ghost predicate Inside(b: byte, c: CodePoint, i: nat) {
    0 < i < |Encode(c)| && Encode(c)[i] == b
  }

  /** The table, exactly: the lead bytes are the bytes with which an encoding starts, with the
      length of that encoding. */
  lemma LeadsAreStarts(b: byte)
    ensures IsLead(b) <==> exists c :: Starts(b, c)
    ensures forall c | Starts(b, c) :: |Encode(c)| == Utf8Len(b)
  {
    if IsLead(b) { assert Starts(b, Starting(b)); }
    forall c | Starts(b, c) ensures IsLead(b) && |Encode(c)| == Utf8Len(b) { EncodeIsChar(c); }
  }

  /** And tail bytes are those found further inside. */
  lemma TailsAreInside(b: byte)
    ensures IsTail(b) <==> exists c, i :: Inside(b, c, i)
  {
    if IsTail(b) { assert Inside(b, 0x80 + (b - 0x80), 1); }
    forall c, i | Inside(b, c, i) ensures IsTail(b) { EncodeIsChar(c); }
  }

  function EncodeEach(cs: seq<CodePoint>): seq<seq<byte>> {
    seq(|cs|, i requires 0 <= i < |cs| => Encode(cs[i]))
  }

  /** Any text that is encoded is well-formed, and its characters are those encoded. */
  lemma {:induction false} EncodedText(cs: seq<CodePoint>)
    ensures WF(Flatten(EncodeEach(cs))) && Chars(Flatten(EncodeEach(cs))) == EncodeEach(cs)
  {
    forall k | 0 <= k < |cs| ensures IsChar(EncodeEach(cs)[k]) { EncodeIsChar(cs[k]); }
    CharsFlatten(EncodeEach(cs));
  }

  /** A lead byte can only be where a character starts. */
  lemma {:induction false} LeadIsBoundary(h: seq<byte>, p: nat)
    requires WF(h) && p < |h| && IsLead(h[p])
    ensures WF(h[..p]) && WF(h[p..]) && Chars(h) == Chars(h[..p]) + Chars(h[p..])
  {
    var n := Utf8Len(h[0]);
    if p == 0 {
      assert h[..0] == [] && h[0..] == h;
    } else if p < n {
      NoLeadInside(h, p);
    } else {
      var c, rest := h[..n], h[n..];
      LeadIsBoundary(rest, p - n);
      var s, t := rest[..p-n], rest[p-n..];
      OneChar(c);
      CharsAppend(c, s);
      TakeDrop(h, n, p);
      ConsAppend(c, Chars(s), Chars(t));
    }
  }

  lemma ConsAppend<T>(c: T, a: seq<T>, b: seq<T>)
    ensures [c] + (a + b) == ([c] + a) + b
  {
  }

  lemma {:induction false} RestIsText(t: seq<byte>, r: seq<byte>)
    requires WF(t) && WF(t + r)
    ensures WF(r) && Chars(t + r) == Chars(t) + Chars(r)
  {
    if t == [] {
      assert t + r == r;
    } else {
      var n := Utf8Len(t[0]);
      var v := t[n..];
      assert (t + r)[..n] == t[..n] && (t + r)[n..] == v + r;
      RestIsText(v, r);
      ConsAppend(t[..n], Chars(v), Chars(r));
    }
  }

  /** A text that starts with the bytes of another starts with its characters. */
  lemma {:induction false} PrefixIsBoundary(h: seq<byte>, t: seq<byte>)
    requires WF(h) && WF(t) && t <= h
    ensures WF(h[|t|..]) && Chars(h) == Chars(t) + Chars(h[|t|..])
  {
    assert h == t + h[|t|..];
    RestIsText(t, h[|t|..]);
  }

  // ---------------------------------------------------------------- searching

  /** t is found at position p of h. */
  predicate OccursAt<T(==)>(h: seq<T>, t: seq<T>, p: nat) {
    p + |t| <= |h| && h[p..p+|t|] == t
  }

  /** The byte at which character k starts. */
  function ByteIndex(h: seq<byte>, k: nat): nat
    requires WF(h) && k <= |Chars(h)|
  {
    |Flatten(Chars(h)[..k])|
  }

  lemma {:induction false} ByteIndexSplits(h: seq<byte>, k: nat)
    requires WF(h) && k <= |Chars(h)|
    ensures var p := ByteIndex(h, k);
      && p <= |h| && WF(h[..p]) && WF(h[p..])
      && Chars(h[..p]) == Chars(h)[..k] && Chars(h[p..]) == Chars(h)[k..]
  {
    var cs := Chars(h);
    FlattenChars(h);
    assert cs == cs[..k] + cs[k..];
    FlattenAppend(cs[..k], cs[k..]);
    var p := ByteIndex(h, k);
    assert h[..p] == Flatten(cs[..k]) && h[p..] == Flatten(cs[k..]);
    CharsFlatten(cs[..k]);
    CharsFlatten(cs[k..]);
  }

  lemma {:induction false} ByteIndexGrows(h: seq<byte>, j: nat, k: nat)
    requires WF(h) && j < k <= |Chars(h)|
    ensures ByteIndex(h, j) < ByteIndex(h, k)
  {
    var cs := Chars(h);
    FlattenChars(h);
    assert cs[..k] == cs[..j] + cs[j..k];
    FlattenAppend(cs[..j], cs[j..k]);
    assert Flatten(cs[j..k]) == cs[j..k][0] + Flatten(cs[j..k][1..]);
  }

  /** Where the bytes of a text are found, its characters are: the search cannot hit the inside
      of a character. */
  lemma ByteMatchIsCharMatch(h: seq<byte>, t: seq<byte>, p: nat) returns (k: nat)
    requires WF(h) && WF(t) && t != [] && OccursAt(h, t, p)
    ensures WF(h[..p]) && k == |Chars(h[..p])| <= |Chars(h)| && p == ByteIndex(h, k)
    ensures OccursAt(Chars(h), Chars(t), k)
  {
    var m := h[p..];
    assert h[p] == h[p..p+|t|][0];
    LeadIsBoundary(h, p);
    k := |Chars(h[..p])|;
    assert Chars(h)[..k] == Chars(h[..p]);
    FlattenChars(h[..p]);
    assert t == m[..|t|];
    PrefixIsBoundary(m, t);
    MatchAfter(Chars(h[..p]), Chars(t), Chars(m[|t|..]));
  }

  lemma MatchAfter<T>(a: seq<T>, b: seq<T>, c: seq<T>)
    ensures OccursAt(a + (b + c), b, |a|)
  {
  }

  lemma MatchSplits<T>(a: seq<T>, b: seq<T>, k: nat) returns (c: seq<T>)
    requires OccursAt(a, b, k)
    ensures a[k..] == b + c
  {
    c := a[k+|b|..];
  }

  lemma MatchJoins<T>(a: seq<T>, b: seq<T>, k: nat, c: seq<T>)
    requires k <= |a| && a[k..] == b + c
    ensures OccursAt(a, b, k)
  {
    assert a == a[..k] + a[k..];
  }

  /** A text whose first characters are those of t starts with t. */
  lemma {:induction false} StartsWith(s: seq<byte>, t: seq<byte>, more: seq<seq<byte>>)
    requires WF(s) && WF(t) && Chars(s) == Chars(t) + more
    ensures s == t + Flatten(more)
  {
    FlattenChars(s);
    FlattenChars(t);
    FlattenAppend(Chars(t), more);
  }

  /** And the other way round. */
  lemma {:induction false} CharMatchIsByteMatch(h: seq<byte>, t: seq<byte>, k: nat)
    requires WF(h) && WF(t) && OccursAt(Chars(h), Chars(t), k)
    ensures OccursAt(h, t, ByteIndex(h, k))
  {
    var p := ByteIndex(h, k);
    ByteIndexSplits(h, k);
    var more := MatchSplits(Chars(h), Chars(t), k);
    StartsWith(h[p..], t, more);
    MatchJoins(h, t, p, Flatten(more));
  }
}
