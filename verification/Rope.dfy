/**
  Rope strings (package/konoha.rope/rope_glue.c): concatenation makes a node that shares its
  two parts, and reading a rope overwrites that node in place by a linear string, while other
  ropes may still have it as a part.
 */
module Rope {

  const SIZEOF_INLINETEXT: nat := 16

  /** S_flag: the top three bits of magicflag. */
  type Flag = bv3

  const S_FLAG_LINER: Flag := 1
  const S_FLAG_INLINE: Flag := 2
  const S_FLAG_EXTERNAL: Flag := 3
  const S_FLAG_ROPE: Flag := 4

  /** The word after the length: the text of a flat string, or the left part of a rope. */
  datatype Slot = Nothing | Text(p: array<char>) | Left(part: StringBase)

  class StringBase {
    var flag: Flag
    var length: nat
    var slot: Slot
    var right: StringBase?
    const inlineText: array<char>

    /** What the string stands for, once and for all, and its place in the order of the parts. */
    ghost const content: seq<char>
    ghost const rank: nat

    /** new_StringBase: a fresh String object carries the inline flag, which is cleared by
        exclusive or before the flag asked for is set. */
    constructor (mask: Flag, ghost content: seq<char>, ghost rank: nat)
      ensures flag == mask && slot == Nothing && right == null && this.content == content && this.rank == rank
      ensures fresh(inlineText) && inlineText.Length == SIZEOF_INLINETEXT
    {
      flag, length, slot, right := S_FLAG_INLINE, 0, Nothing, null;
      inlineText := new char[SIZEOF_INLINETEXT];
      this.content, this.rank := content, rank;
      new;
      UnsetFlag(S_FLAG_INLINE);
      SetFlag(mask);
    }

    method SetFlag(mask: Flag)
      modifies this`flag
      ensures flag == old(flag) | mask
    {
      flag := flag | mask;
    }

    method UnsetFlag(mask: Flag)
      modifies this`flag
      ensures flag == old(flag) ^ mask
    {
      flag := flag ^ mask;
    }

    predicate IsRope()
      reads this
    {
      flag == S_FLAG_ROPE
    }
  }

  /** All strings, and all buffers that hold the text of one: those are not written any more. */
  class Strings {
    ghost var all: set<StringBase>
    ghost var buffers: set<array<char>>

    /** A rope has two parts that are not empty, and is no shorter than what fits inline;
        any other string has its text in a buffer. */
    ghost predicate NodeOk(s: StringBase)
      reads this, s, buffers
    {
      && s.length == |s.content| && s.inlineText in buffers && s.inlineText.Length == SIZEOF_INLINETEXT
      && (s.IsRope() ==> RopeOk(s))
      && (!s.IsRope() ==> FlatOk(s))
    }

    ghost predicate RopeOk(s: StringBase)
      reads this, s
    {
      && s.slot.Left? && s.slot.part in all && s.right != null && s.right in all
      && s.slot.part.rank < s.rank && s.right.rank < s.rank
      && s.content == s.slot.part.content + s.right.content
      && s.slot.part.content != [] && s.right.content != [] && |s.content| >= SIZEOF_INLINETEXT
    }

    ghost predicate FlatOk(s: StringBase)
      reads this, s, buffers
    {
      && (s.flag == S_FLAG_LINER || s.flag == S_FLAG_INLINE || s.flag == S_FLAG_EXTERNAL)
      && s.slot.Text? && s.slot.p in buffers && s.length <= s.slot.p.Length && s.slot.p[..s.length] == s.content
      && (s.flag == S_FLAG_INLINE ==> s.slot.p == s.inlineText && s.length < SIZEOF_INLINETEXT)
      && (s.flag != S_FLAG_EXTERNAL ==> s.length < s.slot.p.Length && s.slot.p[s.length] == '\0')
    }

    ghost predicate Valid()
      reads this, all, buffers
    {
      forall s {:trigger NodeOk(s)} | s in all :: NodeOk(s)
    }

    lemma FlatText(s: StringBase)
      requires Valid() && s in all && !s.IsRope()
      ensures s.slot.Text? && s.slot.p in buffers && s.length == |s.content| <= s.slot.p.Length
      ensures s.slot.p[..s.length] == s.content
    {
      assert NodeOk(s);
    }

    lemma RopeParts(s: StringBase)
      requires Valid() && s in all && s.IsRope()
      ensures RopeOk(s) && s.length == s.slot.part.length + s.right.length
      ensures s.slot.part.length == |s.slot.part.content| && s.right.length == |s.right.content|
    {
      assert NodeOk(s) && NodeOk(s.slot.part) && NodeOk(s.right);
    }

    /** The text of a string, put together from the parts as they are in memory now. */
    ghost function TextOf(s: StringBase): (t: seq<char>)
      requires Valid() && s in all
      reads this, all, buffers
      ensures t == s.content
      decreases s.rank
    {
      assert NodeOk(s);
      if s.IsRope() then TextOf(s.slot.part) + TextOf(s.right) else s.slot.p[..s.length]
    }

    constructor ()
      ensures Valid() && all == {} && buffers == {}
    {
      all, buffers := {}, {};
    }

    // ---------------------------------------------------------------- reading

    /** write_text: the text of base goes to size places from off on, and nowhere else. */
    method WriteText(base0: StringBase, dest: array<char>, off0: nat, size0: nat)
      requires Valid() && base0 in all && dest !in buffers
      requires size0 == base0.length && off0 + size0 <= dest.Length
      modifies dest
      ensures Written(dest[..], old(dest[..]), off0, off0 + size0, off0 + size0, base0.content)
      decreases base0.rank, 1
    {
      var base, off, size := base0, off0, size0;
      ghost var done: seq<char> := [];
      ghost var was := dest[..];
      while true
        invariant Valid() && base in all && size == base.length && base.rank <= base0.rank
        invariant off + size == off0 + size0 && done + base.content == base0.content
        invariant Written(dest[..], was, off0, off, off0 + size0, done)
        decreases base.rank
      {
        if !base.IsRope() {
          WriteFlat(base, dest, off, was, off0, off0 + size0, done);
          return;
        }
        RopeParts(base);
        var len := WriteLeft(base, dest, off, was, off0, off0 + size0, done);
        assert done + (base.slot.part.content + base.right.content)
          == done + base.slot.part.content + base.right.content;
        done := done + base.slot.part.content;
        base := base.right;
        off := off + len;
        size := size - len;
      }
    }

    /** Its turn for a flat string, the last one. */
    method WriteFlat(base: StringBase, dest: array<char>, off: nat, ghost was: seq<char>, ghost lo: nat, ghost hi: nat,
        ghost done: seq<char>)
      requires Valid() && base in all && !base.IsRope() && dest !in buffers
      requires off + base.length <= hi && Written(dest[..], was, lo, off, hi, done)
      modifies dest
      ensures Written(dest[..], was, lo, off + base.length, hi, done + base.content)
    {
      FlatText(base);
      ghost var now := dest[..];
      CopyText(base.slot.p, dest, off, base.length);
      WrittenMore(dest[..], now, was, lo, off, hi, done, base.content);
    }

    /** Its turn for a rope: the left part is written, and its length returned. */
    method WriteLeft(base: StringBase, dest: array<char>, off: nat, ghost was: seq<char>, ghost lo: nat, ghost hi: nat,
        ghost done: seq<char>)
      returns (len: nat)
      requires Valid() && base in all && base.IsRope() && dest !in buffers
      requires off + base.length <= hi && Written(dest[..], was, lo, off, hi, done)
      modifies dest
      ensures base.slot.Left? && len == base.slot.part.length
      ensures Written(dest[..], was, lo, off + len, hi, done + base.slot.part.content)
      decreases base.rank, 0
    {
      RopeParts(base);
      var part := base.slot.part;
      len := part.length;
      ghost var now := dest[..];
      WriteText(part, dest, off, len);
      WrittenMore(dest[..], now, was, lo, off, hi, done, part.content);
    }

    /** memcpy */
    method CopyText(src: array<char>, dest: array<char>, off: nat, n: nat)
      requires src != dest && n <= src.Length && off + n <= dest.Length
      modifies dest
      ensures Written(dest[..], old(dest[..]), off, off + n, off + n, src[..n])
    {
      var i := 0;
      while i < n
        invariant 0 <= i <= n
        invariant forall k | 0 <= k < i :: dest[off+k] == src[k]
        invariant forall k | 0 <= k < off || off + n <= k < dest.Length :: dest[k] == old(dest[k])
      {
        dest[off+i] := src[i];
        i := i + 1;
      }
      assert dest[off..off+n] == src[..n];
    }

    /** The text of the two parts of a rope, into a zeroed buffer. */
    method WriteBoth(rope: StringBase, dest: array<char>)
      requires Valid() && rope in all && rope.IsRope() && dest !in buffers && dest.Length == rope.length + 1
      requires dest[rope.length] == '\0'
      modifies dest
      ensures dest[..rope.length] == rope.content && dest[rope.length] == '\0'
    {
      RopeParts(rope);
      ghost var zeroed := dest[..];
      var llen := rope.slot.part.length;
      WriteText(rope.slot.part, dest, 0, llen);
      ghost var half := dest[..];
      WriteText(rope.right, dest, llen, rope.length - llen);
      BothWritten(dest[..], half, zeroed, rope.slot.part.content, rope.right.content);
    }

    /** RopeString_flatten: the rope becomes a linear string on a new buffer with its text. */
    method Flatten(rope: StringBase) returns (p: array<char>)
      requires Valid() && rope in all && rope.IsRope()
      modifies this`buffers, rope`flag, rope`length, rope`slot
      ensures Valid() && p in buffers && fresh(p) && buffers == old(buffers) + {p}
      ensures rope.flag == S_FLAG_LINER && rope.slot == Text(p) && rope.length == old(rope.length) == p.Length - 1
    {
      assert NodeOk(rope);
      var length := rope.length;
      var dest := new char[length + 1](_ => '\0');
      WriteBoth(rope, dest);
      buffers := buffers + {dest};
      ToLinerString(rope, dest, length);
      p := dest;
      forall s | s in all ensures NodeOk(s) {
        assert old(NodeOk(s));
      }
    }

    /** RopeString_toLinerString: the word that held the left part now holds the text. */
    method ToLinerString(o: StringBase, text: array<char>, len: nat)
      requires o.flag == S_FLAG_ROPE
      modifies o`flag, o`length, o`slot
      ensures o.flag == S_FLAG_LINER && o.length == len && o.slot == Text(text)
    {
      o.UnsetFlag(S_FLAG_ROPE);
      o.SetFlag(S_FLAG_LINER);
      o.length := len;
      o.slot := Text(text);
    }

    /** String_getReference: the text of s is in the buffer returned. Every string, also those
        that s is a part of, has the text it had; a string that was flat is not changed at all,
        so a second read returns the same buffer and changes nothing. */
    method GetReference(s: StringBase) returns (p: array<char>)
      requires Valid() && s in all
      modifies this`buffers, s`flag, s`length, s`slot
      ensures Valid() && p in buffers && buffers >= old(buffers)
      ensures s.length <= p.Length && p[..s.length] == old(TextOf(s))
      ensures forall t | t in all :: TextOf(t) == old(TextOf(t)) && t.length == old(t.length)
      ensures !s.IsRope() && s.slot == Text(p)
      ensures old(!s.IsRope()) ==> unchanged(s) && buffers == old(buffers)
      ensures old(s.IsRope()) ==> fresh(p) && s.flag == S_FLAG_LINER
    {
      assert NodeOk(s);
      if s.IsRope() {
        p := Flatten(s);
      } else {
        p := s.slot.p;
      }
      assert NodeOk(s);
    }

    // ---------------------------------------------------------------- making strings

    /** Knew_String: the first len characters of a text, inline if they fit, in the text itself
        if it is there to stay (SPOL_TEXT), and in a copy otherwise. */
    method KnewString(text: array<char>, len: nat, isText: bool) returns (s: StringBase)
      requires Valid() && len <= text.Length
      modifies this
      ensures Valid() && fresh(s) && all == old(all) + {s} && buffers >= old(buffers)
      ensures TextOf(s) == text[..len] && s.length == len && s.slot.Text?
      // inline exactly if it fits; else the caller's text itself exactly if that is there to stay
      ensures len < SIZEOF_INLINETEXT ==> s.flag == S_FLAG_INLINE && s.slot.p == s.inlineText
      ensures len >= SIZEOF_INLINETEXT && isText ==> s.flag == S_FLAG_EXTERNAL && s.slot.p == text
      ensures len >= SIZEOF_INLINETEXT && !isText ==> s.flag == S_FLAG_LINER
      ensures len < SIZEOF_INLINETEXT || !isText ==> fresh(s.slot.p) && fresh(buffers - old(buffers))
      ensures forall t | t in old(all) :: TextOf(t) == old(TextOf(t))
    {
      s := new StringBase(0, text[..len], 0);
      if len < SIZEOF_INLINETEXT {
        InlineNew(s, text, len);
      } else if isText {
        ExternalNew(s, text, len);
      } else {
        LinerNew(s, text, len);
      }
      Adopt(s);
    }

    /** InlineString_new */
    method InlineNew(s: StringBase, text: array<char>, len: nat)
      requires s.flag == 0 && len <= text.Length && len < s.inlineText.Length && s.inlineText != text
      modifies s`flag, s`length, s`slot, s.inlineText
      ensures s.flag == S_FLAG_INLINE && s.length == len && s.slot == Text(s.inlineText)
      ensures s.inlineText[..len] == text[..len] && s.inlineText[len] == '\0'
    {
      s.SetFlag(S_FLAG_INLINE);
      s.length := len;
      Fill(s.inlineText, text, len);
      s.slot := Text(s.inlineText);
    }

    /** ExternalString_new */
    method ExternalNew(s: StringBase, text: array<char>, len: nat)
      requires s.flag == 0
      modifies s`flag, s`length, s`slot
      ensures s.flag == S_FLAG_EXTERNAL && s.length == len && s.slot == Text(text)
    {
      s.SetFlag(S_FLAG_EXTERNAL);
      s.length := len;
      s.slot := Text(text);
    }

    /** LinerString_new */
    method LinerNew(s: StringBase, text: array<char>, len: nat)
      requires s.flag == 0 && len <= text.Length
      modifies s`flag, s`length, s`slot
      ensures s.flag == S_FLAG_LINER && s.length == len && s.slot.Text? && fresh(s.slot.p) && s.slot.p.Length == len + 1
      ensures s.slot.p[..len] == text[..len] && s.slot.p[len] == '\0'
    {
      s.SetFlag(S_FLAG_LINER);
      s.length := len;
      var p := new char[len + 1];
      Fill(p, text, len);
      s.slot := Text(p);
    }

    /** Copy a text and end it with NUL. */
    method Fill(p: array<char>, text: array<char>, len: nat)
      requires p != text && len < p.Length && len <= text.Length
      modifies p
      ensures p[..len] == text[..len] && p[len] == '\0'
    {
      var i := 0;
      while i < len
        invariant 0 <= i <= len && forall k | 0 <= k < i :: p[k] == text[k]
      {
        p[i] := text[i];
        i := i + 1;
      }
      p[len] := '\0';
    }

    /** StringBase_concat: the text of the result is that of the two strings, whose own text
        stays as it is. Two strings that fit inline together are neither of them ropes. */
    method Concat(left: StringBase, right: StringBase) returns (s: StringBase)
      requires Valid() && left in all && right in all
      modifies this, left, right
      ensures Valid() && s in all && all >= old(all)
      ensures TextOf(s) == old(TextOf(left)) + old(TextOf(right))
      ensures forall t | t in old(all) :: TextOf(t) == old(TextOf(t)) && unchanged(t)
      ensures old(left.length) == 0 ==> s == right
      ensures old(left.length) > 0 && old(right.length) == 0 ==> s == left
      ensures old(left.length) > 0 && old(right.length) > 0 ==>
        && fresh(s) && fresh(buffers - old(buffers))
        && if s.length < SIZEOF_INLINETEXT then s.flag == S_FLAG_INLINE
           else s.IsRope() && s.slot == Left(left) && s.right == right
    {
      assert NodeOk(left) && NodeOk(right);
      var llen := left.length;
      if llen == 0 {
        assert left.content + right.content == right.content;
        return right;
      }
      var rlen := right.length;
      if rlen == 0 {
        assert left.content + right.content == left.content;
        return left;
      }
      var length := llen + rlen;
      if length < SIZEOF_INLINETEXT {
        s := ConcatInline(left, right, length);
      } else {
        s := RopeNew(left, right, length);
      }
    }

    /** A string that fits inline is no rope, so reading it changes nothing. */
    method ShortReference(s: StringBase) returns (p: array<char>)
      requires Valid() && s in all && s.length < SIZEOF_INLINETEXT
      modifies this`buffers, s`flag, s`length, s`slot
      ensures unchanged(this) && unchanged(s) && Valid()
      ensures p in buffers && s.length == |s.content| <= p.Length && p[..s.length] == s.content
    {
      assert NodeOk(s);
      p := GetReference(s);
    }

    /** The short path of StringBase_concat. */
    method ConcatInline(left: StringBase, right: StringBase, length: nat) returns (ret: StringBase)
      requires Valid() && left in all && right in all && length == left.length + right.length < SIZEOF_INLINETEXT
      modifies this, left, right
      ensures Valid() && fresh(ret) && all == old(all) + {ret} && !ret.IsRope()
      ensures ret.content == left.content + right.content && ret.flag == S_FLAG_INLINE && ret.length == length
      ensures fresh(buffers - old(buffers))
      ensures forall t | t in old(all) :: unchanged(t)
    {
      ret := new StringBase(S_FLAG_INLINE, left.content + right.content, 0);
      var s0 := ShortReference(left);
      var s1 := ShortReference(right);
      InlineBoth(ret, s0, left.length, s1, right.length);
      Adopt(ret);
    }

    /** The two texts become the inline text of a new string. */
    method InlineBoth(ret: StringBase, s0: array<char>, n0: nat, s1: array<char>, n1: nat)
      requires ret.inlineText != s0 && ret.inlineText != s1 && n0 <= s0.Length && n1 <= s1.Length
      requires n0 + n1 < ret.inlineText.Length
      modifies ret`length, ret`slot, ret.inlineText
      ensures ret.length == n0 + n1 && ret.slot == Text(ret.inlineText)
      ensures ret.inlineText[..n0+n1] == s0[..n0] + s1[..n1] && ret.inlineText[n0+n1] == '\0'
    {
      Fill2(ret.inlineText, s0, n0, s1, n1);
      ret.length := n0 + n1;
      ret.slot := Text(ret.inlineText);
    }

    /** A flat string that is finished joins the others. */
    ghost method Adopt(s: StringBase)
      requires Valid() && s !in all && s.inlineText.Length == SIZEOF_INLINETEXT && s.length == |s.content|
      requires s.flag == S_FLAG_LINER || s.flag == S_FLAG_INLINE || s.flag == S_FLAG_EXTERNAL
      requires s.slot.Text? && s.length <= s.slot.p.Length && s.slot.p[..s.length] == s.content
      requires s.flag == S_FLAG_INLINE ==> s.slot.p == s.inlineText && s.length < SIZEOF_INLINETEXT
      requires s.flag != S_FLAG_EXTERNAL ==> s.length < s.slot.p.Length && s.slot.p[s.length] == '\0'
      modifies this
      ensures Valid() && all == old(all) + {s} && buffers == old(buffers) + {s.inlineText, s.slot.p}
    {
      buffers := buffers + {s.inlineText, s.slot.p};
      all := all + {s};
      assert FlatOk(s);
      forall t | t in all ensures NodeOk(t) {
        if t != s { assert old(NodeOk(t)); }
      }
    }

    method Fill2(p: array<char>, s0: array<char>, n0: nat, s1: array<char>, n1: nat)
      requires p != s0 && p != s1 && n0 <= s0.Length && n1 <= s1.Length && n0 + n1 < p.Length
      modifies p
      ensures p[..n0+n1] == s0[..n0] + s1[..n1] && p[n0+n1] == '\0'
    {
      ghost var was := p[..];
      CopyText(s0, p, 0, n0);
      ghost var half := p[..];
      CopyText(s1, p, n0, n1);
      p[n0+n1] := '\0';
      assert half[0..n0] == half[..n0];
      assert p[..n0+n1] == p[..n0] + p[n0..n0+n1];
    }

    /** RopeString_new */
    method RopeNew(left: StringBase, right: StringBase, len: nat) returns (s: StringBase)
      requires Valid() && left in all && right in all && left.length > 0 && right.length > 0
      requires len == left.length + right.length >= SIZEOF_INLINETEXT
      modifies this
      ensures Valid() && fresh(s) && all == old(all) + {s} && s.IsRope()
      ensures s.content == left.content + right.content && s.slot == Left(left) && s.right == right && s.length == len
      ensures fresh(buffers - old(buffers))
    {
      assert NodeOk(left) && NodeOk(right);
      s := new StringBase(S_FLAG_ROPE, left.content + right.content,
        1 + if left.rank > right.rank then left.rank else right.rank);
      s.length := len;
      s.slot := Left(left);
      s.right := right;
      AdoptRope(s);
    }

    /** A rope that is finished joins the others. */
    ghost method AdoptRope(s: StringBase)
      requires Valid() && s !in all && s.inlineText.Length == SIZEOF_INLINETEXT && s.length == |s.content|
      requires s.IsRope() && RopeOk(s)
      modifies this
      ensures Valid() && all == old(all) + {s} && buffers == old(buffers) + {s.inlineText}
    {
      buffers := buffers + {s.inlineText};
      all := all + {s};
      forall t | t in all ensures NodeOk(t) {
        if t != s { assert old(NodeOk(t)); }
      }
    }

    // ---------------------------------------------------------------- depth, and tracing

    ghost function Depth(s: StringBase): (d: nat)
      requires Valid() && s in all
      reads this, all, buffers
      ensures s.content != [] ==> d < |s.content|
      ensures s.content == [] ==> d == 0
      decreases s.rank
    {
      assert NodeOk(s);
      if !s.IsRope() then 0
      else var l, r := Depth(s.slot.part), Depth(s.right); 1 + if l > r then l else r
    }

    /** The strings that the text of s is read from, s itself among them. */
    ghost function Reads(s: StringBase): (r: set<StringBase>)
      requires Valid() && s in all
      reads this, all, buffers
      ensures s in r && r <= all
      decreases s.rank
    {
      assert NodeOk(s);
      if s.IsRope() then {s} + Reads(s.slot.part) + Reads(s.right) else {s}
    }

    /** What tracing s hands to the collector, in order: for each rope that its text is read
        from, after all of the left part, the rope and its two parts. */
    ghost function TraceOf(s: StringBase): (t: seq<StringBase>)
      requires Valid() && s in all
      reads this, all, buffers
      decreases s.rank
    {
      assert NodeOk(s);
      if s.IsRope() then TraceOf(s.slot.part) + [s, s.slot.part, s.right] + TraceOf(s.right) else []
    }

    /** Of a rope, those are exactly the strings that its text is read from. */
    lemma {:induction false} TracedAreRead(s: StringBase)
      requires Valid() && s in all
      ensures forall t :: t in TraceOf(s) <==> s.IsRope() && t in Reads(s)
      decreases s.rank
    {
      assert NodeOk(s);
      if s.IsRope() {
        TracedAreRead(s.slot.part);
        TracedAreRead(s.right);
        TracedParts(s);
      }
    }

    lemma {:induction false} TracedParts(s: StringBase)
      requires Valid() && s in all && s.IsRope() && RopeOk(s)
      requires forall t :: t in TraceOf(s.slot.part) <==> s.slot.part.IsRope() && t in Reads(s.slot.part)
      requires forall t :: t in TraceOf(s.right) <==> s.right.IsRope() && t in Reads(s.right)
      ensures forall t :: t in TraceOf(s) <==> t in Reads(s)
    {
      assert NodeOk(s) && NodeOk(s.slot.part) && NodeOk(s.right);
      assert TraceOf(s) == TraceOf(s.slot.part) + [s, s.slot.part, s.right] + TraceOf(s.right);
      assert Reads(s) == {s} + Reads(s.slot.part) + Reads(s.right);
    }

    lemma {:induction false} TraceOfRope(s: StringBase)
      requires Valid() && s in all && s.IsRope()
      ensures s.slot.Left? && s.slot.part in all && s.right != null && s.right in all
      ensures s.slot.part.rank < s.rank && s.right.rank < s.rank
      ensures TraceOf(s) == TraceOf(s.slot.part) + [s, s.slot.part, s.right] + TraceOf(s.right)
    {
      assert NodeOk(s);
    }

    /** StringBase_reftrace */
    method Reftrace(s0: StringBase) returns (traced: seq<StringBase>)
      requires Valid() && s0 in all
      ensures traced == TraceOf(s0)
      decreases s0.rank
    {
      var s := s0;
      traced := [];
      while s.IsRope()
        invariant s in all && s.rank <= s0.rank && traced + TraceOf(s) == TraceOf(s0)
        decreases s.rank
      {
        TraceOfRope(s);
        var part := s.slot.part;
        Reassociate(traced, TraceOf(part), [s, part, s.right], TraceOf(s.right));
        var below := Reftrace(part);
        traced := traced + below + [s, part, s.right];
        s := s.right;
      }
      assert traced + [] == traced;
    }
  }

  lemma Reassociate<T>(a: seq<T>, b: seq<T>, c: seq<T>, d: seq<T>)
    ensures a + (b + c + d) == a + b + c + d
  {
  }

  lemma BothWritten(now: seq<char>, half: seq<char>, zeroed: seq<char>, l: seq<char>, r: seq<char>)
    requires |zeroed| == |l| + |r| + 1 && zeroed[|l| + |r|] == '\0'
    requires Written(half, zeroed, 0, |l|, |l|, l) && Written(now, half, |l|, |l| + |r|, |l| + |r|, r)
    ensures now[..|l|+|r|] == l + r && now[|l|+|r|] == '\0'
  {
    var n := |l| + |r|;
    assert now[..n] == now[..|l|] + now[|l|..n];
    assert now[n] == now[n..][0] && half[n] == half[n..][0];
    assert half[n] == half[|l|..][|r|] && zeroed[n] == zeroed[|l|..][|r|];
    assert half[0..|l|] == half[..|l|];
  }

  /** Of a buffer, lo to hi is being written: t is there up to off, and outside all is as it was. */
  ghost predicate Written(now: seq<char>, was: seq<char>, lo: nat, off: nat, hi: nat, t: seq<char>) {
    && |now| == |was| && lo <= off <= hi <= |now| && now[lo..off] == t
    && now[..lo] == was[..lo] && now[hi..] == was[hi..]
  }

  lemma WrittenMore(next: seq<char>, now: seq<char>, was: seq<char>, lo: nat, off: nat, hi: nat, t: seq<char>,
      c: seq<char>)
    requires Written(now, was, lo, off, hi, t) && off + |c| <= hi
    requires Written(next, now, off, off + |c|, off + |c|, c)
    ensures Written(next, was, lo, off + |c|, hi, t + c)
  {
    assert next[..off] == now[..off];
    assert next[lo..off+|c|] == next[lo..off] + next[off..off+|c|];
    assert next[lo..off] == next[..off][lo..] && now[lo..off] == now[..off][lo..];
    assert next[..lo] == next[..off][..lo] && now[..lo] == now[..off][..lo];
    assert next[hi..] == next[off+|c|..][hi-off-|c|..] && now[hi..] == now[off+|c|..][hi-off-|c|..];
  }
}
