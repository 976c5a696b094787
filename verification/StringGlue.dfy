/**
  The character operations of package/konoha.string/string_glue.h: loops over bytes and over
  the lengths that lead bytes announce, proved against the characters of the text.
 */
module StringGlue {

  import opened Options
  import opened Utf8

  /** A string object: its bytes with the terminating NUL, and the flag for ASCII text. */
  datatype KString = KString(buf: seq<byte>, ascii: bool) {
    ghost predicate Valid() {
      && buf != [] && buf[Size()] == 0 && WF(Text())
      && (ascii ==> forall i | 0 <= i < Size() :: buf[i] < 0x80)
    }

    /** S_size */
    function Size(): nat
      requires buf != []
    {
      |buf| - 1
    }

    function Text(): seq<byte>
      requires buf != []
    {
      buf[..Size()]
    }
  }

  lemma SliceOfPrefix<T>(a: seq<T>, n: nat, i: nat, j: nat)
    requires i <= j <= n <= |a|
    ensures a[i..j] == a[..n][i..j]
  {
    assert forall k | 0 <= k < j - i :: a[i..j][k] == a[..n][i..j][k];
  }

  // ---------------------------------------------------------------- lengths

  /** text_mlen: the number of characters in the first size bytes of t. */
  method TextMlen(t: seq<byte>, size: nat) returns (n: nat)
    requires size <= |t| && WF(t[..size])
    ensures n == |Chars(t[..size])|
  {
    n := 0;
    var start := 0;
    while start < size
      invariant start <= size && WF(t[start..size])
      invariant n + |Chars(t[start..size])| == |Chars(t[..size])|
    {
      var ulen := Utf8Len(t[start]);
      assert t[start..size][ulen..] == t[start+ulen..size];
      n := n + 1;
      start := start + ulen;
    }
  }

  /** In ASCII text every byte is a character. */
  lemma {:induction false} AsciiChars(s: seq<byte>)
    requires WF(s) && forall i | 0 <= i < |s| :: s[i] < 0x80
    ensures |Chars(s)| == |s|
  {
    if s != [] { AsciiChars(s[1..]); }
  }

  /** String_getSize */
  method GetSize(s: KString) returns (n: nat)
    requires s.Valid()
    ensures n == |Chars(s.Text())|
  {
    if s.ascii {
      AsciiChars(s.Text());
      n := s.Size();
    } else {
      n := TextMlen(s.buf, s.Size());
    }
  }

  // ---------------------------------------------------------------- searching

  /** k is the first place where t is found in h, or -1. */
  ghost predicate IsFirst<T>(h: seq<T>, t: seq<T>, k: int) {
    if k < 0 then k == -1 && forall j: nat :: !OccursAt(h, t, j)
    else OccursAt(h, t, k) && forall j: nat | j < k :: !OccursAt(h, t, j)
  }

  /** k is the last place where t is found in h. */
  ghost predicate IsLast<T>(h: seq<T>, t: seq<T>, k: nat) {
    OccursAt(h, t, k) && forall j: nat | j > k :: !OccursAt(h, t, j)
  }

  /** strstr */
  method Strstr(h: seq<byte>, t: seq<byte>) returns (p: int)
    ensures IsFirst(h, t, p)
  {
    p := 0;
    while p + |t| <= |h|
      invariant 0 <= p && forall j: nat | j < p :: !OccursAt(h, t, j)
    {
      if h[p..p+|t|] == t { return; }
      p := p + 1;
    }
    p := -1;
  }

  /** The first place by bytes is the first place by characters. */
  lemma FirstByteIsFirstChar(h: seq<byte>, t: seq<byte>, p: nat) returns (k: nat)
    requires WF(h) && WF(t) && IsFirst(h, t, p)
    ensures WF(h[..p]) && k == |Chars(h[..p])| && IsFirst(Chars(h), Chars(t), k)
  {
    if t == [] {
      assert OccursAt(h, t, 0);
      assert h[..0] == [];
      k := 0;
    } else {
      k := ByteMatchIsCharMatch(h, t, p);
      forall j: nat | j < k ensures !OccursAt(Chars(h), Chars(t), j) {
        ByteIndexGrows(h, j, k);
        if OccursAt(Chars(h), Chars(t), j) { CharMatchIsByteMatch(h, t, j); }
      }
    }
  }

  lemma {:induction false} NoByteNoChar(h: seq<byte>, t: seq<byte>)
    requires WF(h) && WF(t) && forall j: nat :: !OccursAt(h, t, j)
    ensures forall j: nat :: !OccursAt(Chars(h), Chars(t), j)
  {
    forall j: nat ensures !OccursAt(Chars(h), Chars(t), j) {
      if OccursAt(Chars(h), Chars(t), j) { CharMatchIsByteMatch(h, t, j); }
    }
  }

  /** String_indexOf: the index of the first character at which the characters of s1 are found
      in s0, or -1; s1 may be null. */
  method IndexOf(s0: KString, s1: Option<KString>) returns (loc: int)
    requires s0.Valid() && (s1.Some? ==> s1.value.Valid())
    ensures if s1.None? then loc == -1 else IsFirst(Chars(s0.Text()), Chars(s1.value.Text()), loc)
  {
    loc := -1;
    if s1.Some? {
      var t0, t1 := s0.Text(), s1.value.Text();
      var p := Strstr(t0, t1);
      if p >= 0 {
        ghost var k := FirstByteIsFirstChar(t0, t1, p);
        loc := p;
        if !s0.ascii {
          loc := TextMlen(t0, loc);
        } else {
          AsciiChars(t0[..p]);
        }
      } else {
        NoByteNoChar(t0, t1);
      }
    }
  }

  /** The last place by bytes is the last place by characters. */
  lemma LastByteIsLastChar(h: seq<byte>, t: seq<byte>, p: nat) returns (k: nat)
    requires WF(h) && WF(t) && t != [] && IsLast(h, t, p)
    ensures WF(h[..p]) && k == |Chars(h[..p])| && IsLast(Chars(h), Chars(t), k)
  {
    k := ByteMatchIsCharMatch(h, t, p);
    forall j: nat | j > k ensures !OccursAt(Chars(h), Chars(t), j) {
      if OccursAt(Chars(h), Chars(t), j) {
        ByteIndexGrows(h, k, j);
        CharMatchIsByteMatch(h, t, j);
      }
    }
  }

  /** String_lastIndexOf: the index of the last character at which the characters of s1 are
      found. When there is none, or s1 is empty, the result is negative: -1, or the difference
      of the sizes if s1 is the longer one. */
  method LastIndexOf(s0: KString, s1: KString) returns (r: int)
    requires s0.Valid() && s1.Valid()
    ensures r >= 0 ==> s1.Size() > 0 && IsLast(Chars(s0.Text()), Chars(s1.Text()), r)
    ensures r < 0 ==> (s1.Size() == 0 || forall k: nat :: !OccursAt(Chars(s0.Text()), Chars(s1.Text()), k))
    ensures r < 0 ==> r == if s1.Size() > s0.Size() then s0.Size() - s1.Size() else -1
  {
    ghost var t0, t1 := s0.Text(), s1.Text();
    var loc := LastPlace(s0, s1);
    r := loc;
    if loc >= 0 {
      ghost var k := LastByteIsLastChar(t0, t1, loc);
      assert t0[..loc] == s0.buf[..loc];
      if !s0.ascii {
        r := TextMlen(s0.buf, loc);
      } else {
        AsciiChars(t0[..loc]);
      }
    } else if s1.Size() > 0 {
      NoByteNoChar(t0, t1);
    }
  }

  /** Its loop, from the last byte where the needle could be. */
  method LastPlace(s0: KString, s1: KString) returns (loc: int)
    requires s0.Valid() && s1.Valid()
    ensures loc >= 0 ==> s1.Size() > 0 && IsLast(s0.Text(), s1.Text(), loc)
    ensures loc < 0 ==> s1.Size() == 0 || forall j: nat :: !OccursAt(s0.Text(), s1.Text(), j)
    ensures loc < 0 ==> loc == if s1.Size() > s0.Size() then s0.Size() - s1.Size() else -1
  {
    ghost var t0, t1 := s0.Text(), s1.Text();
    loc := s0.Size() - s1.Size();
    if s1.Size() == 0 { loc := loc - 1; }
    NoNul(t0);
    while loc >= 0
      invariant loc < |t0| && loc + |t1| <= |t0|
      invariant loc >= -1 || loc == s0.Size() - s1.Size()
      invariant s1.Size() > 0 ==> forall j: nat | j > loc :: !OccursAt(t0, t1, j)
    {
      if s0.buf[loc] == s1.buf[0] && Strncmp(s0.buf, loc, s1.buf, s1.Size()) { break; }
      if s1.Size() > 0 { NoMatch(s0, s1, loc); }
      loc := loc - 1;
    }
    if loc >= 0 { Match(s0, s1, loc); }
  }

  lemma Match(s0: KString, s1: KString, p: nat)
    requires s0.Valid() && s1.Valid() && p + s1.Size() <= s0.Size() && Strncmp(s0.buf, p, s1.buf, s1.Size())
    ensures OccursAt(s0.Text(), s1.Text(), p)
  {
    SliceOfPrefix(s0.buf, s0.Size(), p, p + s1.Size());
  }

  lemma NoMatch(s0: KString, s1: KString, p: nat)
    requires s0.Valid() && s1.Valid() && p + s1.Size() <= s0.Size()
    requires !(s0.buf[p] == s1.buf[0] && Strncmp(s0.buf, p, s1.buf, s1.Size())) && s1.Size() > 0
    ensures !OccursAt(s0.Text(), s1.Text(), p)
  {
    SliceOfPrefix(s0.buf, s0.Size(), p, p + s1.Size());
    assert s0.buf[p..p+s1.Size()][0] == s0.buf[p] && s1.buf[..s1.Size()][0] == s1.buf[0];
  }

  /** strncmp of n bytes at p with the first n of b, in text without NUL. */
  predicate Strncmp(a: seq<byte>, p: nat, b: seq<byte>, n: nat) {
    p + n <= |a| && n <= |b| && a[p..p+n] == b[..n]
  }

  // ---------------------------------------------------------------- characters by number

  /** The cast of a size to a 32-bit int. */
  function Int32(n: nat): int {
    var u := n % 0x1_0000_0000;
    if u < 0x8000_0000 then u else u - 0x1_0000_0000
  }

  /** The cast to int: the number in its range that differs by a multiple of 2^32. */
  lemma Int32Is(n: nat)
    ensures -0x8000_0000 <= Int32(n) < 0x8000_0000 && exists k: int :: Int32(n) == n + k * 0x1_0000_0000
  {
    var k := n / 0x1_0000_0000;
    assert Int32(n) == n + (-k) * 0x1_0000_0000 || Int32(n) == n + (-k - 1) * 0x1_0000_0000;
  }

  /** Where the pointer is after n characters: one past the terminator reads no further. */
  function HopIndex(t: seq<byte>, n: nat): nat
    requires WF(t) && n <= |Chars(t)| + 1
  {
    if n <= |Chars(t)| then ByteIndex(t, n) else |t| + 1
  }

  lemma {:induction false} ByteIndexEnds(t: seq<byte>)
    requires WF(t)
    ensures ByteIndex(t, 0) == 0 && ByteIndex(t, |Chars(t)|) == |t|
  {
    FlattenChars(t);
    assert Chars(t)[..|Chars(t)|] == Chars(t);
  }

  /** The bytes of a range of characters. */
  lemma {:induction false} SliceOfChars(t: seq<byte>, i: nat, j: nat)
    requires WF(t) && i <= j <= |Chars(t)|
    ensures ByteIndex(t, i) <= ByteIndex(t, j) <= |t|
    ensures t[ByteIndex(t, i)..ByteIndex(t, j)] == Flatten(Chars(t)[i..j])
  {
    var cs := Chars(t);
    assert cs[..j] == cs[..i] + cs[i..j] && cs == cs[..j] + cs[j..];
    FlattenAppend(cs[..i], cs[i..j]);
    FlattenAppend(cs[..j], cs[j..]);
    FlattenChars(t);
  }

  /** The lead byte there tells where the next character starts. */
  lemma {:induction false} HopNext(t: seq<byte>, n: nat)
    requires WF(t) && n <= |Chars(t)|
    ensures var p := HopIndex(t, n);
      && p <= |t| && (n < |Chars(t)| ==> p < HopIndex(t, n + 1) <= |t| && Chars(t)[n] == t[p..HopIndex(t, n + 1)])
      && HopIndex(t, n + 1) == p + if p < |t| then Utf8Len(t[p]) else 1
  {
    ByteIndexEnds(t);
    if n < |Chars(t)| {
      ByteIndexGrows(t, n, n + 1);
      SliceOfChars(t, n, n + 1);
      var c := Chars(t)[n];
      assert Chars(t)[n..n+1] == [c];
      FlattenOne(c);
      FlattenChars(t);
      assert c[0] == t[ByteIndex(t, n)];
    }
  }

  /** The byte at place q from the start of the text; beyond is what lies past the terminator. */
  function ByteAt(s: KString, beyond: nat -> byte, q: nat): byte {
    if q < |s.buf| then s.buf[q] else beyond(q - |s.buf|)
  }

  /** Hopping n characters on leads to q: where character n starts, one past the end, or, if
      there are not that many characters, somewhere further on. */
  predicate HopsTo(t: seq<byte>, n: nat, q: nat)
    requires WF(t)
  {
    if n <= |Chars(t)| + 1 then q == HopIndex(t, n) else q > |t|
  }

  lemma HopOn(s: KString, beyond: nat -> byte, n: nat, q: nat)
    requires s.Valid() && HopsTo(s.Text(), n, q)
    ensures HopsTo(s.Text(), n + 1, q + Utf8Len(ByteAt(s, beyond, q)))
  {
    if n <= |Chars(s.Text())| { HopNext(s.Text(), n); }
  }

  /** The loop over lead bytes that S_mget and S_msubstring share: hop n characters on from p,
      past the terminator too. */
  method Hop(s: KString, beyond: nat -> byte, from: nat, n: nat, p: nat) returns (q: nat)
    requires s.Valid() && !s.ascii && HopsTo(s.Text(), from, p)
    ensures HopsTo(s.Text(), from + n, q)
  {
    q := p;
    var i := 0;
    while i < n
      invariant i <= n && HopsTo(s.Text(), from + i, q)
    {
      HopOn(s, beyond, from + i, q);
      q := q + Utf8Len(ByteAt(s, beyond, q));
      i := i + 1;
    }
  }

  /** Whether a hop ends inside the text. */
  lemma {:induction false} HopEnds(t: seq<byte>, n: nat, q: nat)
    requires WF(t) && HopsTo(t, n, q)
    ensures q < |t| <==> n < |Chars(t)|
    ensures n <= |Chars(t)| ==> q == ByteIndex(t, n) <= |t|
  {
    ByteIndexEnds(t);
    if n <= |Chars(t)| { HopNext(t, n); }
  }

  /** Character n, if there is one and an int can hold n. */
  function CharAt(t: seq<byte>, n: nat): Option<seq<byte>>
    requires WF(t)
  {
    if Int32(n) >= 0 && n < |Chars(t)| then Some(Chars(t)[n]) else None
  }

  /** S_mget: character n, or null past the end or if the number does not fit an int. */
  method MGet(s: KString, beyond: nat -> byte, n: nat) returns (ret: Option<seq<byte>>)
    requires s.Valid() && !s.ascii
    ensures ret == CharAt(s.Text(), n)
  {
    ret := None;
    if Int32(n) < 0 { return; }
    ghost var t := s.Text();
    ByteIndexEnds(t);
    var start := Hop(s, beyond, 0, n, 0);
    HopEnds(t, n, start);
    if start < s.Size() {
      HopNext(t, n);
      var end := start + Utf8Len(s.buf[start]);
      SliceOfPrefix(s.buf, s.Size(), start, end);
      ret := Some(s.buf[start..end]);
    }
  }

  lemma SmallFits(n: nat)
    requires n < 0x8000_0000
    ensures Int32(n) == n
  {
  }

  lemma LargeDoesNot()
    ensures Int32(0x8000_0000) < 0
  {
  }

  /** Every character can be got exactly if their number fits a 32-bit int, */
  lemma {:induction false} AllGot(t: seq<byte>)
    requires WF(t)
    ensures (forall n: nat | n < |Chars(t)| :: CharAt(t, n).Some?) <==> |Chars(t)| <= 0x8000_0000
  {
    if |Chars(t)| > 0x8000_0000 {
      LargeDoesNot();
      assert CharAt(t, 0x8000_0000).None?;
    } else {
      forall n: nat | n < |Chars(t)| ensures CharAt(t, n).Some? { SmallFits(n); }
    }
  }

  /** and then the characters got one by one make up the text. */
  lemma {:induction false} GotRebuilds(t: seq<byte>)
    requires WF(t) && |Chars(t)| <= 0x8000_0000
    ensures Flatten(seq(|Chars(t)|, n requires 0 <= n < |Chars(t)| => Got(CharAt(t, n)))) == t
  {
    FlattenChars(t);
    var got := seq(|Chars(t)|, n requires 0 <= n < |Chars(t)| => Got(CharAt(t, n)));
    assert got == Chars(t);
  }

  function Got(c: Option<seq<byte>>): seq<byte> {
    if c.Some? then c.value else []
  }

  /** The characters from moff on, mlen of them, or all if mlen as an int is not positive or
      there are not that many. */
  function CharsFrom(t: seq<byte>, moff: nat, mlen: nat): seq<seq<byte>>
    requires WF(t) && moff <= |Chars(t)|
  {
    if Int32(mlen) <= 0 || moff + mlen > |Chars(t)| then Chars(t)[moff..] else Chars(t)[moff..moff+mlen]
  }

  lemma {:induction false} CharsFromIs(t: seq<byte>, moff: nat, mlen: nat)
    requires WF(t) && moff <= |Chars(t)|
    ensures IsSubstring(t, Flatten(CharsFrom(t, moff, mlen)), moff, mlen)
  {
    var cs := CharsFrom(t, moff, mlen);
    CharsAre(t);
    assert forall k | 0 <= k < |cs| :: cs[k] == Chars(t)[moff+k];
    CharsFlatten(cs);
  }

  /** r is a text of its own, of the characters of t from number moff on: mlen, if that is
      positive as an int and there are so many, or all there are. */
  ghost predicate IsSubstring(t: seq<byte>, r: seq<byte>, moff: nat, mlen: nat)
    requires WF(t) && moff <= |Chars(t)|
  {
    && WF(r)
    && |Chars(r)| == (if 0 < Int32(mlen) && mlen < |Chars(t)| - moff then mlen else |Chars(t)| - moff)
    && forall k | 0 <= k < |Chars(r)| :: Chars(r)[k] == Chars(t)[moff+k]
  }

  /** S_msubstring */
  method MSubstring(s: KString, beyond: nat -> byte, moff: nat, mlen: nat) returns (ret: Option<seq<byte>>)
    requires s.Valid() && !s.ascii
    ensures ret ==
      if Int32(moff) < 0 || moff >= |Chars(s.Text())| then None
      else Some(Flatten(CharsFrom(s.Text(), moff, mlen)))
    ensures ret.Some? ==> moff < |Chars(s.Text())| && IsSubstring(s.Text(), ret.value, moff, mlen)
  {
    ret := None;
    if Int32(moff) < 0 { return; }
    ByteIndexEnds(s.Text());
    var start := Hop(s, beyond, 0, moff, 0);
    HopEnds(s.Text(), moff, start);
    if start < s.Size() {
      var text := CutFrom(s, beyond, moff, mlen, start);
      ret := Some(text);
      CharsFromIs(s.Text(), moff, mlen);
    }
  }

  /** Its part for a start inside the text. */
  method CutFrom(s: KString, beyond: nat -> byte, moff: nat, mlen: nat, start: nat) returns (text: seq<byte>)
    requires s.Valid() && !s.ascii && moff < |Chars(s.Text())| && HopsTo(s.Text(), moff, start)
    ensures text == Flatten(CharsFrom(s.Text(), moff, mlen))
  {
    HopEnds(s.Text(), moff, start);
    if Int32(mlen) <= 0 {
      CutAll(s, moff, mlen);
      text := s.buf[start..s.Size()];
    } else {
      var end := Hop(s, beyond, moff, mlen, start);
      HopEnds(s.Text(), moff + mlen, end);
      if end < s.Size() {
        CutSome(s, moff, mlen);
        text := s.buf[start..end];
      } else {
        CutAll(s, moff, mlen);
        text := s.buf[start..s.Size()];
      }
    }
  }

  lemma CutAll(s: KString, moff: nat, mlen: nat)
    requires s.Valid() && moff < |Chars(s.Text())| && (Int32(mlen) <= 0 || moff + mlen >= |Chars(s.Text())|)
    ensures ByteIndex(s.Text(), moff) <= s.Size()
    ensures s.buf[ByteIndex(s.Text(), moff)..s.Size()] == Flatten(CharsFrom(s.Text(), moff, mlen))
  {
    var t := s.Text();
    var cs := Chars(t);
    ByteIndexEnds(t);
    SliceOfChars(t, moff, |cs|);
    SliceOfPrefix(s.buf, s.Size(), ByteIndex(t, moff), s.Size());
    assert cs[moff..|cs|] == CharsFrom(t, moff, mlen);
  }

  lemma CutSome(s: KString, moff: nat, mlen: nat)
    requires s.Valid() && Int32(mlen) > 0 && moff + mlen < |Chars(s.Text())|
    ensures ByteIndex(s.Text(), moff) <= ByteIndex(s.Text(), moff + mlen) <= s.Size()
    ensures s.buf[ByteIndex(s.Text(), moff)..ByteIndex(s.Text(), moff + mlen)]
      == Flatten(CharsFrom(s.Text(), moff, mlen))
  {
    var t := s.Text();
    SliceOfChars(t, moff, moff + mlen);
    SliceOfPrefix(s.buf, s.Size(), ByteIndex(t, moff), ByteIndex(t, moff + mlen));
  }

  // ---------------------------------------------------------------- trimming

  /** isspace in the C locale. */
  predicate IsSpace(b: byte) {
    b == 32 || 9 <= b <= 13
  }

  /** The six characters that isspace holds of. */
  lemma SpacesAre(b: byte)
    ensures IsSpace(b) <==> b as char in {' ', '\t', '\n', '\U{0B}', '\U{0C}', '\r'}
  {
  }

  /** text is r with white space around it, and r has none at its ends. */
  ghost predicate IsTrimmed(text: seq<byte>, r: seq<byte>) {
    && (exists a: nat, b: nat | IsInner(text, a, b) :: r == text[a..b])
    && (r != [] ==> !IsSpace(r[0]) && !IsSpace(r[|r|-1]))
  }

  /** There is only white space before a and from b on. */
  ghost predicate IsInner(text: seq<byte>, a: nat, b: nat) {
    && a <= b <= |text|
    && (forall i | 0 <= i < a :: IsSpace(text[i]))
    && (forall i | b <= i < |text| :: IsSpace(text[i]))
  }

  lemma SliceOfRest<T>(a: seq<T>, i: nat, j: nat)
    requires i <= j <= |a|
    ensures a[i..j] == a[i..][..j-i]
  {
    assert forall k | 0 <= k < j - i :: a[i..j][k] == a[i..][..j-i][k];
  }

  lemma {:induction false} AfterSpace(t: seq<byte>, a: nat)
    requires WF(t) && a <= |t| && (a > 0 ==> IsSpace(t[a-1]))
    ensures WF(t[a..])
  {
    if a > 0 {
      LeadIsBoundary(t, a - 1);
      assert t[a-1..][1..] == t[a..];
    } else {
      assert t[a..] == t;
    }
  }

  lemma {:induction false} BeforeSpace(t: seq<byte>, b: nat)
    requires WF(t) && b <= |t| && (b < |t| ==> IsSpace(t[b]))
    ensures WF(t[..b])
  {
    if b < |t| { LeadIsBoundary(t, b); } else { assert t[..b] == t; }
  }

  lemma {:induction false} TrimmedWF(t: seq<byte>, a: nat, b: nat)
    requires WF(t) && IsInner(t, a, b)
    ensures WF(t[a..b])
  {
    AfterSpace(t, a);
    BeforeSpace(t[a..], b - a);
    SliceOfRest(t, a, b);
  }

  lemma TrimmedIs(t: seq<byte>, a: nat, b: nat)
    requires IsInner(t, a, b) && (a < b ==> !IsSpace(t[a]) && !IsSpace(t[b-1]))
    ensures IsTrimmed(t, t[a..b])
  {
  }

  /** String_trim */
  method Trim(s: KString) returns (r: seq<byte>)
    requires s.Valid()
    ensures IsTrimmed(s.Text(), r) && WF(r)
  {
    var start, len := SkipSpaces(s);
    if len != 0 {
      len := DropSpaces(s, start, len);
    }
    TrimmedIs(s.Text(), start, start + len);
    TrimmedWF(s.Text(), start, start + len);
    SliceOfPrefix(s.buf, s.Size(), start, start + len);
    r := s.buf[start..start+len];
  }

  /** Its first loop. */
  method SkipSpaces(s: KString) returns (start: nat, len: nat)
    requires s.Valid()
    ensures start + len == s.Size() && (len > 0 ==> !IsSpace(s.buf[start]))
    ensures forall i | 0 <= i < start :: IsSpace(s.buf[i])
  {
    start, len := 0, s.Size();
    while IsSpace(s.buf[start])
      invariant start + len == s.Size()
      invariant forall i | 0 <= i < start :: IsSpace(s.buf[i])
      decreases len
    {
      start := start + 1;
      len := len - 1;
    }
  }

  /** Its second loop. */
  method DropSpaces(s: KString, start: nat, len0: nat) returns (len: nat)
    requires s.Valid() && 0 < len0 && start + len0 == s.Size() && !IsSpace(s.buf[start])
    ensures 0 < len && start + len <= s.Size() && !IsSpace(s.buf[start+len-1])
    ensures forall i | start + len <= i < s.Size() :: IsSpace(s.buf[i])
  {
    len := len0;
    while IsSpace(s.buf[start+len-1])
      invariant 0 < len && start + len <= s.Size()
      invariant forall i | start + len <= i < s.Size() :: IsSpace(s.buf[i])
      decreases len
    {
      len := len - 1;
      if len == 0 { break; }
    }
  }

  /** There is only one such text. */
  lemma TrimmedOnce(text: seq<byte>, r: seq<byte>, r': seq<byte>)
    requires IsTrimmed(text, r) && IsTrimmed(text, r')
    ensures r == r'
  {
    var a: nat, b: nat :| IsInner(text, a, b) && r == text[a..b];
    var a': nat, b': nat :| IsInner(text, a', b') && r' == text[a'..b'];
    if a < b && a' < b' {
      assert r[0] == text[a] && r'[0] == text[a'];
      assert r[|r|-1] == text[b-1] && r'[|r'|-1] == text[b'-1];
    }
  }
}
