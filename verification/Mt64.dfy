/**
  The 64-bit Mersenne Twister of package/konoha/mt19937ar.h (the half for 64-bit
  integers): the state array that is overwritten in place, against the
  recurrence of Nishimura, "Tables of 64-bit Mersenne Twisters", ACM TOMACS 10
  (2000).
 */
module Mt64 {

  const NN: nat := 312
  const MM: nat := 156
  const MATRIX_A: bv64 := 0xB5026F5AA96619E9
  const UM: bv64 := 0xFFFFFFFF80000000
  const DEFAULT_SEED: bv64 := 5489
  const LM: bv64 := 0x7FFFFFFF

  // ---------------------------------------------------------------- the recurrence

  /** mag01 */
  function Mag01(x: bv64): bv64 {
    if x & 1 == 0 then 0 else MATRIX_A
  }

  /** A word plus the product of x and the matrix A. */
  function Twist(far: bv64, x: bv64): bv64 {
    far ^ (x >> 1) ^ Mag01(x)
  }

  /** The upper 33 bits of one word and the lower 31 of the next. */
  function Join(u: bv64, v: bv64): bv64 {
    (u & UM) | (v & LM)
  }

  /** The word 312 places on from the words at k + 156, k and k + 1. */
  function Step(far: bv64, here: bv64, next: bv64): bv64 {
    Twist(far, Join(here, next))
  }

  /** Term k of the infinite sequence that starts with the given 312 words. */
  function Term<W>(step: (W, W, W) -> W, init: seq<W>, k: nat): W
    requires |init| == NN
  {
    if k < NN then init[k]
    else step(Term(step, init, k - NN + MM), Term(step, init, k - NN), Term(step, init, k - NN + 1))
  }

  function Xor(a: bv64, b: bv64): bv64 { a ^ b }

  function Shift1(x: bv64): bv64 { (x >> 29) & 0x5555555555555555 }
  function Shift2(x: bv64): bv64 { (x << 17) & 0x71D67FFFEDA60000 }
  function Shift3(x: bv64): bv64 { (x << 37) & 0xFFF7EEE000000000 }
  function Shift4(x: bv64): bv64 { x >> 43 }

  /** One step of the output transform. */
  function Feed(f: bv64 -> bv64, x: bv64): bv64 {
    Xor(x, f(x))
  }

  /** Four such steps. */
  function FeedAll(f: bv64 -> bv64, g: bv64 -> bv64, h: bv64 -> bv64, k: bv64 -> bv64, x: bv64): bv64 {
    Feed(k, Feed(h, Feed(g, Feed(f, x))))
  }

  /** The output transform of one word. */
  function Temper(x: bv64): bv64 {
    FeedAll(Shift1, Shift2, Shift3, Shift4, x)
  }

  // ---------------------------------------------------------------- seeding

  type Index = i: nat | i < NN

  /** One step of init_genrand64's recurrence. */
  function SeedStep(prev: bv64, i: Index): bv64 {
    6364136223846793005 * (prev ^ (prev >> 62)) + (i as bv64)
  }

  function SeedTerm<W>(step: (W, Index) -> W, seed: W, i: Index): W {
    if i == 0 then seed else step(SeedTerm(step, seed, i - 1), i)
  }

  /** The state after seeding. */
  function SeedTerms<W>(step: (W, Index) -> W, seed: W): (s: seq<W>)
    ensures |s| == NN && forall i: Index :: s[i] == SeedTerm(step, seed, i)
  {
    seq(NN, i requires 0 <= i < NN => SeedTerm(step, seed, i))
  }

  /** The first n words are seeded. */
  ghost predicate SeededTo<W>(step: (W, Index) -> W, seed: W, s: seq<W>, n: nat) {
    n <= |s| == NN && forall i: Index | i < n :: s[i] == SeedTerm(step, seed, i)
  }

  lemma SeededNext<W>(step: (W, Index) -> W, seed: W, s: seq<W>, n: Index, s': seq<W>)
    requires 0 < n && SeededTo(step, seed, s, n) && s' == s[n := step(s[n-1], n)]
    ensures SeededTo(step, seed, s', n + 1)
  {
  }

  lemma SeededAll<W>(step: (W, Index) -> W, seed: W, s: seq<W>)
    requires SeededTo(step, seed, s, NN)
    ensures s == SeedTerms(step, seed)
  {
  }

  /** The state after init_genrand64(seed). */
  function Seeded(seed: bv64): seq<bv64> {
    SeedTerms(SeedStep, seed)
  }

  const KEY_SEED: bv64 := 19650218
  const MSB: bv64 := 0x8000000000000000

  /** Where n goes when it counts round a key of the given length. */
  function Around(n: nat, length: nat): (j: nat)
    requires 0 < length
    ensures j < length
  {
    if n < length then n else Around(n - length, length)
  }

  /** How many words of a key are read. */
  function Used(length: nat): nat {
    if length == 0 then 1 else length
  }

  function KeyRounds(length: nat): nat {
    if NN > length then NN else length
  }

  type Small = n: nat | n < 0x1_0000_0000_0000_0000

  function AddKey(word: bv64, prev: bv64, k: bv64, j: Small): bv64 {
    (word ^ ((prev ^ (prev >> 62)) * 3935559000370003845)) + k + (j as bv64)
  }

  function TakePosition(word: bv64, prev: bv64, i: Small): bv64 {
    (word ^ ((prev ^ (prev >> 62)) * 2862933555777941757)) - (i as bv64)
  }

  /** A key that init_by_array64 can be given: it reads the first word before it looks at the length. */
  type Key = key: seq<bv64> | 0 < |key| < 0x1_0000_0000_0000_0000 witness [0]

  /** One step of init_by_array64: what replaces a word, next to the one written before.
      The first loop adds the key, the second takes away the position. */
  function KeyStep(key: Key, word: bv64, prev: bv64, n: nat): bv64 {
    if n < KeyRounds(|key|) then
      var j := Around(n, |key|);
      AddKey(word, prev, key[j], j)
    else
      TakePosition(word, prev, Position(n))
  }

  function KeySteps(key: Key): (bv64, bv64, nat) -> bv64 {
    (word, prev, n: nat) => KeyStep(key, word, prev, n)
  }

  /** The words of a circular state, in the order they are written: first the 312 there are,
      then for each step n one that replaces word n + 1. */
  function Stirred<W>(step: (W, W, nat) -> W, init: seq<W>, m: nat): W
    requires |init| == NN
  {
    if m < NN then init[m]
    else step(Stirred(step, init, m - (NN - 1)), if m == NN then init[0] else Stirred(step, init, m - 1), m - NN)
  }

  /** The position step n writes: 1 to 311, and round again. */
  function Position(n: nat): nat {
    1 + n % 311
  }

  /** The number of the word at position p after n steps, of which the next writes position i. */
  function WordAt(n: nat, i: nat, p: nat): nat
    requires 1 <= i < NN && 1 <= p < NN
  {
    if p < i then n + NN + p - i else n + 1 + p - i
  }

  /** The words after n steps, with the top bit of the first one set and the rest of it cleared. */
  function StirredByKey(step: (bv64, bv64, nat) -> bv64, seed: seq<bv64>, n: nat): seq<bv64>
    requires |seed| == NN
  {
    seq(NN, p requires 0 <= p < NN => if p == 0 then MSB else Stirred(step, seed, WordAt(n, Position(n), p)))
  }

  /** The state after init_by_array64(key). */
  function KeySeeded(key: Key): seq<bv64> {
    StirredByKey(KeySteps(key), Seeded(KEY_SEED), KeyRounds(|key|) + 311)
  }

  /** The array after n steps, of which the next writes position i. */
  ghost predicate StirredState<W>(step: (W, W, nat) -> W, init: seq<W>, s: seq<W>, n: nat, i: nat) {
    && |s| == |init| == NN && 1 <= i < NN
    && (forall p | 1 <= p < NN :: s[p] == Stirred(step, init, WordAt(n, i, p)))
    && s[i-1] == if n == 0 then init[0] else Stirred(step, init, n + NN - 1)
  }

  lemma StirStart<W>(step: (W, W, nat) -> W, init: seq<W>)
    requires |init| == NN
    ensures StirredState(step, init, init, 0, 1)
  {
  }

  lemma StirredNext<W>(step: (W, W, nat) -> W, init: seq<W>, n: nat, prev: W)
    requires |init| == NN && prev == if n == 0 then init[0] else Stirred(step, init, n + NN - 1)
    ensures Stirred(step, init, n + NN) == step(Stirred(step, init, n + 1), prev, n)
  {
  }

  function Next(i: nat): nat {
    if i + 1 >= NN then 1 else i + 1
  }

  lemma PositionNext(n: nat)
    ensures Position(n + 1) == Next(Position(n))
  {
  }

  /** A step writes its word, and copies it to position 0 when it was the last of a round. */
  lemma StirStep<W>(step: (W, W, nat) -> W, init: seq<W>, s: seq<W>, n: nat, i: nat, t: seq<W>)
    requires StirredState(step, init, s, n, i) && |t| == NN
    requires t[i] == step(s[i], s[i-1], n)
    requires forall p | 1 <= p < NN && p != i :: t[p] == s[p]
    requires i == NN - 1 ==> t[0] == t[i]
    ensures StirredState(step, init, t, n + 1, Next(i))
  {
    assert WordAt(n, i, i) == n + 1;
    StirredNext(step, init, n, s[i-1]);
    assert WordAt(n + 1, Next(i), i) == n + NN;
    forall p | 1 <= p < NN && p != i ensures t[p] == Stirred(step, init, WordAt(n + 1, Next(i), p)) {
      assert WordAt(n + 1, Next(i), p) == WordAt(n, i, p);
    }
  }

  lemma StirredByKeyIs(step: (bv64, bv64, nat) -> bv64, seed: seq<bv64>, s: seq<bv64>, n: nat)
    requires StirredState(step, seed, s, n, Position(n))
    ensures s[0 := MSB] == StirredByKey(step, seed, n)
  {
  }

  /** Step n, on these words, is one of the first loop. */
  ghost predicate AddsAt(step: (bv64, bv64, nat) -> bv64, key: seq<bv64>, word: bv64, prev: bv64, n: nat)
    requires 0 < |key| < 0x1_0000_0000_0000_0000
  {
    step(word, prev, n) == AddKey(word, prev, key[Around(n, |key|)], Around(n, |key|))
  }

  ghost predicate AddsKey(step: (bv64, bv64, nat) -> bv64, key: seq<bv64>)
    requires 0 < |key| < 0x1_0000_0000_0000_0000
  {
    forall word, prev, n: nat | n < KeyRounds(|key|) :: AddsAt(step, key, word, prev, n)
  }

  /** Step n, on these words, is one of the second loop. */
  ghost predicate TakesAt(step: (bv64, bv64, nat) -> bv64, word: bv64, prev: bv64, n: nat) {
    step(word, prev, n) == TakePosition(word, prev, Position(n))
  }

  ghost predicate TakesPosition(step: (bv64, bv64, nat) -> bv64, from: nat) {
    forall word, prev, n: nat | n >= from :: TakesAt(step, word, prev, n)
  }

  lemma KeyStepsAre(key: Key, rounds: nat)
    requires rounds == KeyRounds(|key|)
    ensures AddsKey(KeySteps(key), key) && TakesPosition(KeySteps(key), rounds)
  {
  }

  lemma SameRounds(length: nat)
    ensures KeyRounds(Used(length)) == KeyRounds(length)
  {
  }

  lemma AroundNext(n: nat, length: nat)
    requires 0 < length
    ensures Around(n + 1, length) == if Around(n, length) + 1 >= length then 0 else Around(n, length) + 1
  {
    if n >= length { AroundNext(n - length, length); }
  }

  // ---------------------------------------------------------------- blocks of the sequence

  lemma TermStep<W>(step: (W, W, W) -> W, init: seq<W>, k: nat)
    requires |init| == NN
    ensures Term(step, init, k + NN) == step(Term(step, init, k + MM), Term(step, init, k), Term(step, init, k + 1))
  {
  }

  /** The 312 terms from number k on. */
  ghost function Window<W>(step: (W, W, W) -> W, init: seq<W>, k: nat): seq<W>
    requires |init| == NN
  {
    seq(NN, i requires 0 <= i < NN => Term(step, init, k + i))
  }

  lemma {:induction false} WindowAt<W>(step: (W, W, W) -> W, init: seq<W>, k: nat, i: nat, n: nat)
    requires |init| == NN && i < NN && n == k + i
    ensures Window(step, init, k)[i] == Term(step, init, n)
  {
  }

  lemma SeedIsWindow<W>(step: (W, W, W) -> W, init: seq<W>)
    requires |init| == NN
    ensures Window(step, init, 0) == init
  {
  }

  /** What one word of the new block is computed from: old words s, new words t. */
  function NewWord<W>(step: (W, W, W) -> W, s: seq<W>, t: seq<W>, i: nat): W
    requires |s| == |t| == NN && i < NN
  {
    step(if i < NN - MM then s[i+MM] else t[i-(NN-MM)], s[i], if i < NN - 1 then s[i+1] else t[0])
  }

  /** t has the first n words of the block after s, and the words of s after that. */
  ghost predicate Regenerated<W>(step: (W, W, W) -> W, s: seq<W>, t: seq<W>, n: nat) {
    |s| == |t| == NN
    && forall i {:trigger NewWord(step, s, t, i)} | 0 <= i < NN ::
      t[i] == if i < n then NewWord(step, s, t, i) else s[i]
  }

  lemma NewWordAt<W>(step: (W, W, W) -> W, s: seq<W>, t: seq<W>, i: nat)
    requires Regenerated(step, s, t, NN) && i < NN
    ensures t[i] == NewWord(step, s, t, i)
  {
  }

  lemma TermFrom<W>(step: (W, W, W) -> W, init: seq<W>, k: nat, far: W, here: W, next: W)
    requires |init| == NN
    requires far == Term(step, init, k + MM) && here == Term(step, init, k) && next == Term(step, init, k + 1)
    ensures step(far, here, next) == Term(step, init, k + NN)
  {
    TermStep(step, init, k);
  }

  /** Each word of a block computed in place is the term 312 places after the one it replaces:
      the words it is computed from are old ones, or new ones written before it. */
  lemma {:induction false} NewWordIsTerm<W>(step: (W, W, W) -> W, s: seq<W>, t: seq<W>, init: seq<W>, k: nat, i: nat,
      n: nat)
    requires |init| == NN && s == Window(step, init, k) && Regenerated(step, s, t, NN) && i < NN && n == k + i
    ensures t[i] == Term(step, init, n + NN)
    decreases i
  {
    var far := if i < NN - MM then s[i+MM] else t[i-(NN-MM)];
    var next := if i < NN - 1 then s[i+1] else t[0];
    if i < NN - MM {
      WindowAt(step, init, k, i + MM, n + MM);
    } else {
      NewWordIsTerm(step, s, t, init, k, i - (NN - MM), n - (NN - MM));
    }
    WindowAt(step, init, k, i, n);
    if i < NN - 1 {
      WindowAt(step, init, k, i + 1, n + 1);
    } else {
      NewWordIsTerm(step, s, t, init, k, 0, k);
    }
    TermFrom(step, init, n, far, s[i], next);
    NewWordAt(step, s, t, i);
  }

  /** The block computed in three segments is the next window of the sequence. */
  lemma RegeneratedIsNext<W>(step: (W, W, W) -> W, s: seq<W>, t: seq<W>, init: seq<W>, k: nat)
    requires |init| == NN && s == Window(step, init, k) && Regenerated(step, s, t, NN)
    ensures t == Window(step, init, k + NN)
  {
    forall i | 0 <= i < NN ensures t[i] == Window(step, init, k + NN)[i] {
      NewWordIsTerm(step, s, t, init, k, i, k + i);
      WindowAt(step, init, k + NN, i, k + i + NN);
    }
  }

  /** Writing word n of the new block in place. */
  lemma RegenerateStep<W>(step: (W, W, W) -> W, s: seq<W>, t: seq<W>, n: nat)
    requires n < NN && Regenerated(step, s, t, n)
    ensures Regenerated(step, s, t[n := NewWord(step, s, t, n)], n + 1)
    ensures forall i | n <= i < NN :: t[i] == s[i]
  {
    var t' := t[n := NewWord(step, s, t, n)];
    forall i | 0 <= i < NN ensures t'[i] == if i < n + 1 then NewWord(step, s, t', i) else s[i] {
      var w := NewWord(step, s, t, i);
      assert t[i] == if i < n then w else s[i];
      if i <= n { assert NewWord(step, s, t', i) == w; }
    }
    forall i | n <= i < NN ensures t[i] == s[i] {
      var w := NewWord(step, s, t, i);
    }
  }

  // ---------------------------------------------------------------- the output transform is a bijection

  /** f distributes over exclusive or. */
  ghost predicate Linear(f: bv64 -> bv64) {
    forall a, b :: f(Xor(a, b)) == Xor(f(a), f(b))
  }

  /** Four times f leaves nothing: each of the shifts is by more than 16 places. */
  ghost predicate Vanishes(f: bv64 -> bv64) {
    forall a :: f(f(f(f(a)))) == 0
  }

  /** What undoes one step: the sum of f applied 0, 1, 2 and 3 times. */
  function Unfeed(f: bv64 -> bv64, y: bv64): bv64 {
    Xor(Xor(y, f(y)), Xor(f(f(y)), f(f(f(y)))))
  }

  function UnfeedAll(f: bv64 -> bv64, g: bv64 -> bv64, h: bv64 -> bv64, k: bv64 -> bv64, y: bv64): bv64 {
    Unfeed(f, Unfeed(g, Unfeed(h, Unfeed(k, y))))
  }

  function Untemper(y: bv64): bv64 {
    UnfeedAll(Shift1, Shift2, Shift3, Shift4, y)
  }

  lemma Shift1Feeds()
    ensures Linear(Shift1) && Vanishes(Shift1)
  {
  }

  lemma Shift2Feeds()
    ensures Linear(Shift2) && Vanishes(Shift2)
  {
  }

  lemma Shift3Feeds()
    ensures Linear(Shift3) && Vanishes(Shift3)
  {
  }

  lemma Shift4Feeds()
    ensures Linear(Shift4) && Vanishes(Shift4)
  {
  }

  lemma XorAssoc(a: bv64, b: bv64, c: bv64)
    ensures Xor(Xor(a, b), c) == Xor(a, Xor(b, c))
  {
    assert Xor(Xor(a, b), c) == (a ^ b) ^ c;
    assert Xor(a, Xor(b, c)) == a ^ (b ^ c);
  }

  lemma XorBack(a: bv64, b: bv64)
    ensures Xor(Xor(a, b), b) == a && Xor(a, 0) == a && Xor(a, b) == Xor(b, a)
  {
  }

  lemma XorMerge(x: bv64, a: bv64, b: bv64)
    ensures Xor(Xor(x, a), Xor(a, b)) == Xor(x, b)
  {
    XorAssoc(Xor(x, a), a, b);
    XorBack(x, a);
  }

  lemma XorSwap(p: bv64, q: bv64, r: bv64, s: bv64)
    ensures Xor(Xor(p, q), Xor(r, s)) == Xor(Xor(p, r), Xor(q, s))
  {
    XorAssoc(Xor(p, q), r, s);
    XorAssoc(p, q, r);
    XorBack(q, r);
    XorAssoc(p, r, q);
    XorAssoc(Xor(p, r), q, s);
  }

  lemma UnfeedFeed(f: bv64 -> bv64, x: bv64)
    requires Linear(f) && Vanishes(f)
    ensures Unfeed(f, Feed(f, x)) == x
  {
    var a := f(x); var b := f(a); var c := f(b);
    XorMerge(x, a, b);
    XorMerge(b, c, 0);
    XorBack(b, c);
    XorBack(x, b);
  }

  lemma FeedUnfeed(f: bv64 -> bv64, y: bv64)
    requires Linear(f) && Vanishes(f)
    ensures Feed(f, Unfeed(f, y)) == y
  {
    var a := f(y); var b := f(a); var c := f(b);
    XorBack(c, 0);
    XorSwap(Xor(y, a), Xor(b, c), Xor(a, b), c);
    XorMerge(y, a, b);
    XorBack(b, c);
    XorBack(y, b);
  }

  lemma UnfeedAllFeedAll(f: bv64 -> bv64, g: bv64 -> bv64, h: bv64 -> bv64, k: bv64 -> bv64, x: bv64)
    requires Linear(f) && Vanishes(f) && Linear(g) && Vanishes(g)
    requires Linear(h) && Vanishes(h) && Linear(k) && Vanishes(k)
    ensures UnfeedAll(f, g, h, k, FeedAll(f, g, h, k, x)) == x
  {
    var x1 := Feed(f, x);
    var x2 := Feed(g, x1);
    UnfeedFeed(k, Feed(h, x2));
    UnfeedFeed(h, x2);
    UnfeedFeed(g, x1);
    UnfeedFeed(f, x);
  }

  lemma FeedAllUnfeedAll(f: bv64 -> bv64, g: bv64 -> bv64, h: bv64 -> bv64, k: bv64 -> bv64, y: bv64)
    requires Linear(f) && Vanishes(f) && Linear(g) && Vanishes(g)
    requires Linear(h) && Vanishes(h) && Linear(k) && Vanishes(k)
    ensures FeedAll(f, g, h, k, UnfeedAll(f, g, h, k, y)) == y
  {
    var y3 := Unfeed(k, y);
    var y2 := Unfeed(h, y3);
    FeedUnfeed(f, Unfeed(g, y2));
    FeedUnfeed(g, y2);
    FeedUnfeed(h, y3);
    FeedUnfeed(k, y);
  }

  /** The output transform loses nothing, */
  lemma UntemperTemper(x: bv64)
    ensures Untemper(Temper(x)) == x
  {
    Shift1Feeds(); Shift2Feeds(); Shift3Feeds(); Shift4Feeds();
    UnfeedAllFeedAll(Shift1, Shift2, Shift3, Shift4, x);
  }

  /** and reaches every word. */
  lemma TemperUntemper(y: bv64)
    ensures Temper(Untemper(y)) == y
  {
    Shift1Feeds(); Shift2Feeds(); Shift3Feeds(); Shift4Feeds();
    FeedAllUnfeedAll(Shift1, Shift2, Shift3, Shift4, y);
  }

  // ---------------------------------------------------------------- states never merge, and never die

  function Upper(x: bv64): bv64 { x & UM }
  function Lower(x: bv64): bv64 { x & LM }

  /** The 19937 bits that the terms from k + 312 on are computed from: the upper bits of
      term k and the 311 terms after it. */
  ghost predicate SameState(a: seq<bv64>, b: seq<bv64>, k: nat)
    requires |a| == |b| == NN
  {
    && Upper(Term(Step, a, k)) == Upper(Term(Step, b, k))
    && forall i | k < i < k + NN :: Term(Step, a, i) == Term(Step, b, i)
  }

  lemma StepInjective(far: bv64, u: bv64, v: bv64, u': bv64, v': bv64)
    requires Step(far, u, v) == Step(far, u', v')
    ensures Upper(u) == Upper(u') && Lower(v) == Lower(v')
  {
    TwistInjective(far, Join(u, v), Join(u', v'));
    JoinInjective(u, v, u', v');
  }

  lemma JoinInjective(u: bv64, v: bv64, u': bv64, v': bv64)
    requires Join(u, v) == Join(u', v')
    ensures Upper(u) == Upper(u') && Lower(v) == Lower(v')
  {
  }

  lemma TwistInjective(far: bv64, x: bv64, y: bv64)
    requires Twist(far, x) == Twist(far, y)
    ensures x == y
  {
  }

  lemma UpperLower(x: bv64, y: bv64)
    requires Upper(x) == Upper(y) && Lower(x) == Lower(y)
    ensures x == y
  {
  }

  lemma StepUses(far: bv64, u: bv64, u': bv64, v: bv64)
    requires Upper(u) == Upper(u')
    ensures Step(far, u, v) == Step(far, u', v)
  {
  }

  lemma SameStateNext(a: seq<bv64>, b: seq<bv64>, k: nat)
    requires |a| == |b| == NN && SameState(a, b, k)
    ensures SameState(a, b, k + 1)
  {
    TermStep(Step, a, k);
    TermStep(Step, b, k);
    StepUses(Term(Step, a, k + MM), Term(Step, a, k), Term(Step, b, k), Term(Step, a, k + 1));
  }

  lemma SameStateBefore(a: seq<bv64>, b: seq<bv64>, k: nat)
    requires |a| == |b| == NN && SameState(a, b, k + 1)
    ensures SameState(a, b, k)
  {
    TermStep(Step, a, k);
    TermStep(Step, b, k);
    StepInjective(Term(Step, a, k + MM), Term(Step, a, k), Term(Step, a, k + 1),
      Term(Step, b, k), Term(Step, b, k + 1));
    UpperLower(Term(Step, a, k + 1), Term(Step, b, k + 1));
  }

  /** Two generators are in the same state at some time exactly if they always were and will be. */
  lemma {:induction false} StatesNeverMerge(a: seq<bv64>, b: seq<bv64>, k: nat)
    requires |a| == |b| == NN
    ensures SameState(a, b, k) <==> SameState(a, b, 0)
  {
    if k > 0 {
      StatesNeverMerge(a, b, k - 1);
      if SameState(a, b, k) { SameStateBefore(a, b, k - 1); }
      if SameState(a, b, k - 1) { SameStateNext(a, b, k - 1); }
    }
  }

  const ZEROS: seq<bv64> := seq(NN, i => 0)

  lemma {:induction false} ZeroStays(k: nat)
    ensures Term(Step, ZEROS, k) == 0
  {
    if k >= NN {
      ZeroStays(k - NN);
      ZeroStays(k - NN + 1);
      ZeroStays(k - NN + MM);
      assert Step(0, 0, 0) == 0;
    }
  }

  lemma ZeroSeedsTwo()
    ensures SeedStep(0, 2) != 0
  {
  }

  /** No seed leads to the state of all zero bits, from which only zeros would come. */
  lemma SeededNeverZero(seed: bv64, k: nat)
    ensures !SameState(Seeded(seed), ZEROS, k)
  {
    var s := Seeded(seed);
    StatesNeverMerge(s, ZEROS, k);
    assert s[2] == SeedStep(s[1], 2);
    ZeroSeedsTwo();
    assert Term(Step, s, 1) == s[1] && Term(Step, s, 2) == s[2];
  }

  lemma KeySeededNeverZero(key: Key, k: nat)
    ensures !SameState(KeySeeded(key), ZEROS, k)
  {
    StatesNeverMerge(KeySeeded(key), ZEROS, k);
    assert KeySeeded(key)[0] == MSB;
    assert Upper(MSB) != Upper(0);
  }

  /** Each of xs is the transform of a term, in order from term number first on. */
  ghost predicate AreOutputs<W>(temper: W -> W, step: (W, W, W) -> W, init: seq<W>, first: nat, xs: seq<W>) {
    |init| == NN && forall k | 0 <= k < |xs| :: xs[k] == temper(Term(step, init, first + k))
  }

  lemma {:induction false} AreOutputsNext<W>(temper: W -> W, step: (W, W, W) -> W, init: seq<W>, first: nat,
      xs: seq<W>, x: W)
    requires AreOutputs(temper, step, init, first, xs) && x == temper(Term(step, init, first + |xs|))
    ensures AreOutputs(temper, step, init, first, xs + [x])
  {
  }

  class Genrand64 {
    const mt: array<bv64>
    var mti: nat

    /** The words the state was last seeded with, the number of the term the next output is
        made of, and the number of the first term in the array. */
    ghost var init: seq<bv64>
    ghost var next: nat
    ghost var base: nat

    /** Once seeded, the array is a window of the sequence, of which the next output
        takes word mti, unless all are used up. */
    ghost predicate Valid()
      reads this, mt
    {
      && mt.Length == NN && mti <= NN + 1
      && (mti <= NN ==> |init| == NN && mt[..] == Window(Step, init, base) && base + mti == next)
    }

    constructor ()
      ensures Valid() && mti == NN + 1 && fresh(mt)
    {
      mt := new bv64[NN];
      mti := NN + 1;
      init, next, base := [], 0, 0;
    }

    method InitGenrand64(seed: bv64)
      requires mt.Length == NN
      modifies this, mt
      ensures Valid() && mti == NN && next == NN
      ensures mt[..] == init == Seeded(seed)
    {
      SeedWords(seed);
      Restart();
    }

    /** The loop of it. */
    method SeedWords(seed: bv64)
      requires mt.Length == NN
      modifies this`mti, mt
      ensures mti == NN && mt[..] == Seeded(seed)
    {
      mt[0] := seed;
      mti := 1;
      while mti < NN
        invariant 1 <= mti <= NN && SeededTo(SeedStep, seed, mt[..], mti)
      {
        ghost var s := mt[..];
        mt[mti] := SeedStep(mt[mti-1], mti);
        SeededNext(SeedStep, seed, s, mti, mt[..]);
        mti := mti + 1;
      }
      SeededAll(SeedStep, seed, mt[..]);
    }

    /** Write a word at i, and go on to the next position. */
    method Stir(ghost step: (bv64, bv64, nat) -> bv64, ghost seed: seq<bv64>, ghost n: nat, i: nat, w: bv64)
      returns (i': nat)
      requires mt.Length == NN && StirredState(step, seed, mt[..], n, i) && w == step(mt[i], mt[i-1], n)
      modifies mt
      ensures StirredState(step, seed, mt[..], n + 1, i') && i' == Next(i)
    {
      ghost var s := mt[..];
      mt[i] := w;
      i' := i + 1;
      if i' >= NN {
        mt[0] := mt[NN-1];
        i' := 1;
      }
      StirStep(step, seed, s, n, i, mt[..]);
    }

    /** The first loop of init_by_array64 adds the key, round and round. */
    method AddKeys(initKey: array<bv64>, keyLength: nat, ghost key: Key, ghost step: (bv64, bv64, nat) -> bv64,
        ghost seed: seq<bv64>)
      returns (i: nat)
      requires mt.Length == NN && initKey != mt && 0 < initKey.Length && keyLength <= initKey.Length
      requires keyLength < 0x1_0000_0000_0000_0000
      requires initKey[..Used(keyLength)] == key && AddsKey(step, key) && mt[..] == seed
      modifies mt
      ensures StirredState(step, seed, mt[..], KeyRounds(keyLength), i) && i == Position(KeyRounds(keyLength))
    {
      StirStart(step, seed);
      var j := 0;
      i := 1;
      var k: nat := if NN > keyLength then NN else keyLength;
      ghost var n := 0;
      while k > 0
        invariant n + k == KeyRounds(keyLength) && j == Around(n, Used(keyLength)) && i == Position(n)
        invariant StirredState(step, seed, mt[..], n, i)
      {
        i, j := StirInKey(initKey, keyLength, key, step, seed, n, i, j);
        k, n := k - 1, n + 1;
      }
    }

    /** One turn of that loop. */
    method StirInKey(initKey: array<bv64>, keyLength: nat, ghost key: Key, ghost step: (bv64, bv64, nat) -> bv64,
        ghost seed: seq<bv64>, ghost n: nat, i: nat, j: nat)
      returns (i': nat, j': nat)
      requires mt.Length == NN && initKey != mt && 0 < initKey.Length && keyLength <= initKey.Length
      requires keyLength < 0x1_0000_0000_0000_0000
      requires initKey[..Used(keyLength)] == key && AddsKey(step, key) && n < KeyRounds(keyLength)
      requires j == Around(n, Used(keyLength)) && i == Position(n) && StirredState(step, seed, mt[..], n, i)
      modifies mt
      ensures j' == Around(n + 1, Used(keyLength)) && i' == Position(n + 1)
      ensures StirredState(step, seed, mt[..], n + 1, i')
    {
      AroundNext(n, Used(keyLength));
      PositionNext(n);
      assert AddsAt(step, key, mt[i], mt[i-1], n) && initKey[j] == key[j];
      var w := AddKey(mt[i], mt[i-1], initKey[j], j);
      i' := Stir(step, seed, n, i, w);
      j' := j + 1;
      if j' >= keyLength { j' := 0; }
    }

    /** The second loop takes away the position. */
    method TakePositions(i0: nat, ghost step: (bv64, bv64, nat) -> bv64, ghost seed: seq<bv64>, ghost n0: nat)
      requires mt.Length == NN && TakesPosition(step, n0)
      requires StirredState(step, seed, mt[..], n0, i0) && i0 == Position(n0)
      modifies mt
      ensures StirredState(step, seed, mt[..], n0 + 311, Position(n0 + 311))
    {
      var i := i0;
      ghost var n := n0;
      var k: nat := NN - 1;
      while k > 0
        invariant n + k == n0 + 311 && n0 <= n && i == Position(n)
        invariant StirredState(step, seed, mt[..], n, i)
      {
        i := StirOutPosition(step, seed, n0, n, i);
        k, n := k - 1, n + 1;
      }
    }

    /** One turn of that loop. */
    method StirOutPosition(ghost step: (bv64, bv64, nat) -> bv64, ghost seed: seq<bv64>, ghost n0: nat, ghost n: nat,
        i: nat)
      returns (i': nat)
      requires mt.Length == NN && TakesPosition(step, n0) && n0 <= n
      requires i == Position(n) && StirredState(step, seed, mt[..], n, i)
      modifies mt
      ensures i' == Position(n + 1) && StirredState(step, seed, mt[..], n + 1, i')
    {
      PositionNext(n);
      assert TakesAt(step, mt[i], mt[i-1], n);
      var w := TakePosition(mt[i], mt[i-1], i);
      i' := Stir(step, seed, n, i, w);
    }

    /** Both loops, and the top bit. */
    method StirKey(initKey: array<bv64>, keyLength: nat, ghost key: Key, ghost step: (bv64, bv64, nat) -> bv64,
        ghost seed: seq<bv64>)
      requires mt.Length == NN && initKey != mt && 0 < initKey.Length && keyLength <= initKey.Length
      requires keyLength < 0x1_0000_0000_0000_0000
      requires initKey[..Used(keyLength)] == key && mt[..] == seed
      requires AddsKey(step, key) && TakesPosition(step, KeyRounds(keyLength))
      modifies mt
      ensures mt[..] == StirredByKey(step, seed, KeyRounds(keyLength) + 311)
    {
      var i := AddKeys(initKey, keyLength, key, step, seed);
      TakePositions(i, step, seed, KeyRounds(keyLength));
      ghost var s := mt[..];
      mt[0] := MSB;
      StirredByKeyIs(step, seed, s, KeyRounds(keyLength) + 311);
    }

    /** init_by_array64: of a key of length 0 the first word is read all the same. */
    method InitByArray64(initKey: array<bv64>, keyLength: nat)
      requires mt.Length == NN && initKey != mt && 0 < initKey.Length && keyLength <= initKey.Length
      requires keyLength < 0x1_0000_0000_0000_0000
      modifies this, mt
      ensures Valid() && mti == NN && next == NN
      ensures mt[..] == init == KeySeeded(initKey[..Used(keyLength)])
    {
      InitGenrand64(KEY_SEED);
      SeedByKey(initKey, keyLength, initKey[..Used(keyLength)]);
      Restart();
    }

    /** All but the first line of it. */
    method SeedByKey(initKey: array<bv64>, keyLength: nat, ghost key: Key)
      requires mt.Length == NN && initKey != mt && 0 < initKey.Length && keyLength <= initKey.Length
      requires keyLength < 0x1_0000_0000_0000_0000
      requires initKey[..Used(keyLength)] == key && mt[..] == Seeded(KEY_SEED)
      modifies mt
      ensures mt[..] == KeySeeded(key)
    {
      ghost var step, seed := KeySteps(key), mt[..];
      KeyStepsAre(key, KeyRounds(keyLength));
      StirKey(initKey, keyLength, key, step, seed);
    }

    /** The words there are count as the first of the sequence. */
    ghost method Restart()
      requires mt.Length == NN && mti == NN
      modifies `init, `next, `base
      ensures Valid() && init == mt[..] && next == NN
    {
      init, next, base := mt[..], NN, 0;
      SeedIsWindow(Step, init);
    }

    /** Generate the next 312 words in place, in three segments. */
    method Regenerate(ghost init: seq<bv64>, ghost k: nat)
      requires mt.Length == |init| == NN && mt[..] == Window(Step, init, k)
      modifies mt
      ensures mt[..] == Window(Step, init, k + NN)
    {
      ghost var s := mt[..];
      var i := 0;
      var x: bv64;
      while i < NN - MM
        invariant 0 <= i <= NN - MM && Regenerated(Step, s, mt[..], i)
      {
        RegenerateStep(Step, s, mt[..], i);
        x := Join(mt[i], mt[i+1]);
        mt[i] := Twist(mt[i+MM], x);
        i := i + 1;
      }
      while i < NN - 1
        invariant NN - MM <= i <= NN - 1 && Regenerated(Step, s, mt[..], i)
      {
        RegenerateStep(Step, s, mt[..], i);
        x := Join(mt[i], mt[i+1]);
        mt[i] := Twist(mt[i-(NN-MM)], x);
        i := i + 1;
      }
      RegenerateStep(Step, s, mt[..], NN - 1);
      x := Join(mt[NN-1], mt[0]);
      mt[NN-1] := Twist(mt[MM-1], x);
      RegeneratedIsNext(Step, s, mt[..], init, k);
    }

    /** The four steps that make an output of a word. */
    method TemperWord(x0: bv64) returns (x: bv64)
      ensures x == Temper(x0)
    {
      x := x0;
      x := Feed(Shift1, x);
      x := Feed(Shift2, x);
      x := Feed(Shift3, x);
      x := Feed(Shift4, x);
    }

    /** Generate 312 words when all are used up, seeding first if that was never done. */
    method Refill()
      requires Valid()
      modifies this, mt
      ensures Valid() && mti < NN
      ensures init == if old(mti) == NN + 1 then Seeded(DEFAULT_SEED) else old(init)
      ensures next == if old(mti) == NN + 1 then NN else old(next)
    {
      if mti >= NN {
        if mti == NN + 1 {
          InitGenrand64(DEFAULT_SEED);
        }
        NextWindow();
      }
    }

    /** Its second half. */
    method NextWindow()
      requires Valid() && mti == NN
      modifies `mti, `base, mt
      ensures Valid() && mti == 0
    {
      Regenerate(init, base);
      base := base + NN;
      mti := 0;
    }

    /** Take the next word out of the array. */
    method NextWord() returns (x: bv64)
      requires Valid() && mti < NN
      modifies this`mti, this`next
      ensures Valid() && mti == old(mti) + 1 && next == old(next) + 1
      ensures x == Term(Step, init, old(next))
    {
      WindowAt(Step, init, base, mti, next);
      assert mt[..][mti] == mt[mti];
      x := mt[mti];
      mti := mti + 1;
      next := next + 1;
    }

    /** genrand64_int64: the output is the transform of the next term. */
    method Int64() returns (x: bv64)
      requires Valid()
      modifies this, mt
      ensures Valid() && mti <= NN
      ensures init == if old(mti) == NN + 1 then Seeded(DEFAULT_SEED) else old(init)
      ensures next == (if old(mti) == NN + 1 then NN else old(next)) + 1
      ensures x == Temper(Term(Step, init, next - 1))
    {
      Refill();
      x := NextWord();
      x := TemperWord(x);
    }

    /** Right after seeding, in either way, output number k is the transform of term 312 + k. */
    method Outputs(n: nat) returns (xs: seq<bv64>)
      requires Valid() && mti <= NN
      modifies this, mt
      ensures Valid() && init == old(init) && next == old(next) + n
      ensures |xs| == n && AreOutputs(Temper, Step, init, old(next), xs)
    {
      xs := [];
      ghost var init0 := init;
      ghost var first := next;
      for k := 0 to n
        invariant Valid() && mti <= NN && init == init0 && next == first + k
        invariant |xs| == k && AreOutputs(Temper, Step, init0, first, xs)
      {
        var x := Int64();
        AreOutputsNext(Temper, Step, init0, first, xs, x);
        xs := xs + [x];
      }
    }
  }
}
