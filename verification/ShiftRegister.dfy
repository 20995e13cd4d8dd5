/**
 * A feedback shift register over any set of words with an exclusive-or: what holds of it follows from the laws
 * of its operators alone, so nothing here looks at bits.
 */
module ShiftRegister {
  datatype Ops<!T> = Ops(xor: (T, T) -> T, zero: T, shl: T -> T, top: T -> bool, high: T, poly: T,
    lowest: (nat, T) -> bool)
  {
    function Step(c: T): T {
      if top(c) then xor(shl(c), poly) else shl(c)
    }

    function Steps(c: T, n: nat): T
      decreases n
    {
      if n == 0 then c else Step(Steps(c, n - 1))
    }

    function Entry(bit: bool): T {
      if bit then high else zero
    }

    /** One bit enters at the top of the register, and the register shifts. */
    function Feed(c: T, bit: bool): T {
      Step(xor(c, Entry(bit)))
    }

    function FeedAll(c: T, bits: seq<bool>): T
      decreases |bits|
    {
      if bits == [] then c else Feed(FeedAll(c, bits[..|bits| - 1]), bits[|bits| - 1])
    }

    function Shifted(y: T, n: nat): T
      decreases n
    {
      if n == 0 then y else shl(Shifted(y, n - 1))
    }

    function TopBits(y: T, n: nat): (bits: seq<bool>)
      ensures |bits| == n
      decreases n
    {
      if n == 0 then [] else TopBits(y, n - 1) + [top(Shifted(y, n - 1))]
    }
  }

  ghost predicate Group<T(!new)>(o: Ops<T>) {
    && (forall a, b, c :: o.xor(o.xor(a, b), c) == o.xor(a, o.xor(b, c)))
    && (forall a, b :: o.xor(a, b) == o.xor(b, a))
    && (forall a :: o.xor(a, o.zero) == a)
    && (forall a :: o.xor(a, a) == o.zero)
  }

  ghost predicate Shifts<T(!new)>(o: Ops<T>) {
    && (forall a, b :: o.shl(o.xor(a, b)) == o.xor(o.shl(a), o.shl(b)))
    && (forall a, b :: o.top(o.xor(a, b)) == (o.top(a) != o.top(b)))
    && o.top(o.high) && !o.top(o.zero) && o.shl(o.high) == o.zero && o.shl(o.zero) == o.zero
  }

  /** `lowest(k, x)` says that bit 31 - k is the lowest set bit; an odd polynomial lets the register run backwards. */
  ghost predicate Backwards<T(!new)>(o: Ops<T>) {
    && (forall x :: o.Step(x) == o.zero ==> x == o.zero)
    && (forall k: nat :: !o.lowest(k, o.zero)) && o.lowest(0, o.high)
    && (forall k: nat, x, bit :: k < 31 && o.lowest(k, o.Feed(x, bit)) ==> o.lowest(k + 1, x))
  }

  ghost predicate Laws<T(!new)>(o: Ops<T>) {
    Group(o) && Shifts(o) && Backwards(o)
  }

  lemma Cancel<T(!new)>(o: Ops<T>, a: T, b: T)
    requires Group(o)
    ensures o.xor(o.xor(a, b), b) == a
    ensures o.xor(a, b) == o.zero ==> a == b
    ensures o.xor(o.zero, a) == a
  {
    assert o.xor(o.xor(a, b), b) == o.xor(a, o.xor(b, b));
    assert o.xor(o.zero, b) == o.xor(b, o.zero);
    assert o.xor(o.zero, a) == o.xor(a, o.zero);
  }

  /** (a + c) + (b + d) == (a + b) + (c + d). */
  lemma Exchange<T(!new)>(o: Ops<T>, a: T, b: T, c: T, d: T)
    requires Group(o)
    ensures o.xor(o.xor(a, c), o.xor(b, d)) == o.xor(o.xor(a, b), o.xor(c, d))
  {
    calc {
      o.xor(o.xor(a, c), o.xor(b, d));
      o.xor(a, o.xor(c, o.xor(b, d)));
      o.xor(a, o.xor(o.xor(c, b), d));
      { assert o.xor(c, b) == o.xor(b, c); }
      o.xor(a, o.xor(o.xor(b, c), d));
      o.xor(a, o.xor(b, o.xor(c, d)));
    }
  }

  lemma StepIsLinear<T(!new)>(o: Ops<T>, x: T, y: T)
    requires Group(o) && Shifts(o)
    ensures o.Step(o.xor(x, y)) == o.xor(o.Step(x), o.Step(y))
  {
    var sx, sy, none := o.shl(x), o.shl(y), o.zero;
    Exchange(o, sx, sy, if o.top(x) then o.poly else none, if o.top(y) then o.poly else none);
    Cancel(o, none, o.poly);
  }

  lemma FeedIsLinear<T(!new)>(o: Ops<T>, x: T, y: T, p: bool, q: bool)
    requires Group(o) && Shifts(o)
    ensures o.Feed(o.xor(x, y), p != q) == o.xor(o.Feed(x, p), o.Feed(y, q))
  {
    Exchange(o, x, y, o.Entry(p), o.Entry(q));
    Cancel(o, o.high, o.high);
    assert o.xor(o.Entry(p), o.Entry(q)) == o.Entry(p != q);
    StepIsLinear(o, o.xor(x, o.Entry(p)), o.xor(y, o.Entry(q)));
  }

  function Differences(x: seq<bool>, y: seq<bool>): (d: seq<bool>)
    requires |x| == |y|
    ensures |d| == |x|
    decreases |x|
  {
    if x == [] then [] else Differences(x[..|x| - 1], y[..|y| - 1]) + [x[|x| - 1] != y[|y| - 1]]
  }

  /** The register is linear: the difference of two runs is the run of the difference. */
  lemma {:induction false} FeedAllIsLinear<T(!new)>(o: Ops<T>, c: T, e: T, x: seq<bool>, y: seq<bool>)
    requires Group(o) && Shifts(o) && |x| == |y|
    ensures o.FeedAll(o.xor(c, e), Differences(x, y)) == o.xor(o.FeedAll(c, x), o.FeedAll(e, y))
    decreases |x|
  {
    if x != [] {
      var n := |x| - 1;
      FeedAllIsLinear(o, c, e, x[..n], y[..n]);
      FeedIsLinear(o, o.FeedAll(c, x[..n]), o.FeedAll(e, y[..n]), x[n], y[n]);
      assert Differences(x, y)[..n] == Differences(x[..n], y[..n]);
    }
  }

  lemma {:induction false} FeedAllConcat<T>(o: Ops<T>, c: T, x: seq<bool>, y: seq<bool>)
    ensures o.FeedAll(c, x + y) == o.FeedAll(o.FeedAll(c, x), y)
    decreases |y|
  {
    if y == [] {
      assert x + y == x;
    } else {
      var n := |y| - 1;
      FeedAllConcat(o, c, x, y[..n]);
      assert (x + y)[..|x + y| - 1] == x + y[..n];
    }
  }

  /** From zero, k bits cannot leave a lone bit lower than the k-th place. */
  lemma {:induction false} NeverLowest<T(!new)>(o: Ops<T>, bits: seq<bool>, k: nat)
    requires Backwards(o) && k + |bits| <= 31
    ensures !o.lowest(k, o.FeedAll(o.zero, bits))
    decreases |bits|
  {
    if bits != [] {
      var n := |bits| - 1;
      NeverLowest(o, bits[..n], k + 1);
      assert o.FeedAll(o.zero, bits) == o.Feed(o.FeedAll(o.zero, bits[..n]), bits[n]);
    }
  }

  /** Up to 32 bits, not all clear, leave a register that started at zero different from zero. */
  lemma {:induction false} WindowIsSeen<T(!new)>(o: Ops<T>, bits: seq<bool>)
    requires Laws(o) && |bits| <= 32 && true in bits
    ensures o.FeedAll(o.zero, bits) != o.zero
    decreases |bits|
  {
    var n := |bits| - 1;
    var before := o.FeedAll(o.zero, bits[..n]);
    if bits[n] {
      NeverLowest(o, bits[..n], 0);
      Cancel(o, before, o.high);
    } else {
      assert bits == bits[..n] + [bits[n]];
      WindowIsSeen(o, bits[..n]);
      assert o.xor(before, o.zero) == before;
    }
  }

  lemma {:induction false} DifferencesShow(x: seq<bool>, y: seq<bool>)
    requires |x| == |y| && x != y
    ensures true in Differences(x, y)
    decreases |x|
  {
    var n := |x| - 1;
    if x[n] == y[n] {
      assert x == x[..n] + [x[n]] && y == y[..n] + [y[n]];
      DifferencesShow(x[..n], y[..n]);
    } else {
      assert Differences(x, y)[n];
    }
  }

  lemma FeedKeepsApart<T(!new)>(o: Ops<T>, x: T, y: T, bit: bool)
    requires Laws(o) && x != y
    ensures o.Feed(x, bit) != o.Feed(y, bit)
  {
    FeedIsLinear(o, x, y, bit, bit);
    Cancel(o, x, y);
    assert o.Feed(o.xor(x, y), false) == o.Step(o.xor(x, y));
    Cancel(o, o.Feed(x, bit), o.Feed(y, bit));
  }

  /** Whatever follows, two different registers stay different under the same bits. */
  lemma {:induction false} SuffixKeepsApart<T(!new)>(o: Ops<T>, c: T, e: T, suffix: seq<bool>)
    requires Laws(o) && c != e
    ensures o.FeedAll(c, suffix) != o.FeedAll(e, suffix)
    decreases |suffix|
  {
    if suffix != [] {
      var n := |suffix| - 1;
      SuffixKeepsApart(o, c, e, suffix[..n]);
      FeedKeepsApart(o, o.FeedAll(c, suffix[..n]), o.FeedAll(e, suffix[..n]), suffix[n]);
    }
  }

  /** Burst detection: two messages that differ only inside one window of up to 32 bits end in different registers. */
  lemma BurstIsSeen<T(!new)>(o: Ops<T>, c: T, prefix: seq<bool>, x: seq<bool>, y: seq<bool>, suffix: seq<bool>)
    requires Laws(o) && |x| == |y| <= 32 && x != y
    ensures o.FeedAll(c, prefix + x + suffix) != o.FeedAll(c, prefix + y + suffix)
  {
    var start := o.FeedAll(c, prefix);
    FeedAllConcat(o, c, prefix, x);
    FeedAllConcat(o, c, prefix, y);
    FeedAllConcat(o, c, prefix + x, suffix);
    FeedAllConcat(o, c, prefix + y, suffix);
    DifferencesShow(x, y);
    WindowIsSeen(o, Differences(x, y));
    FeedAllIsLinear(o, start, start, x, y);
    assert o.xor(start, start) == o.zero;
    var r, s := o.FeedAll(start, x), o.FeedAll(start, y);
    assert r != s by { assert o.xor(s, s) == o.zero; }
    SuffixKeepsApart(o, r, s, suffix);
  }

  lemma Telescope<T(!new)>(o: Ops<T>, a: T, e: T, s: T)
    requires Group(o)
    ensures o.xor(o.xor(a, e), o.xor(e, s)) == o.xor(a, s)
  {
    Cancel(o, a, e);
    assert o.xor(o.xor(o.xor(a, e), e), s) == o.xor(o.xor(a, e), o.xor(e, s));
  }

  lemma BelowTop<T(!new)>(o: Ops<T>, s: T)
    requires Group(o) && Shifts(o)
    ensures o.Step(o.xor(o.Entry(o.top(s)), s)) == o.shl(s)
  {
    var e := o.Entry(o.top(s));
    assert !o.top(o.xor(e, s));
    Cancel(o, o.shl(s), o.zero);
    assert o.shl(o.xor(e, s)) == o.xor(o.shl(e), o.shl(s));
  }

  /** A word already in the register gives up its top bit exactly as if that bit had just entered. */
  lemma StepFeedsTop<T(!new)>(o: Ops<T>, f: T, s: T)
    requires Group(o) && Shifts(o)
    ensures o.Step(o.xor(f, s)) == o.xor(o.Feed(f, o.top(s)), o.shl(s))
  {
    var e := o.Entry(o.top(s));
    Telescope(o, f, e, s);
    StepIsLinear(o, o.xor(f, e), o.xor(e, s));
    BelowTop(o, s);
  }

  /** n shift steps on a whole word equal feeding its n top bits one by one, up to what is still inside the word. */
  lemma {:induction false} StepsAreFeeds<T(!new)>(o: Ops<T>, c: T, y: T, n: nat)
    requires Group(o) && Shifts(o)
    ensures o.Steps(o.xor(c, y), n) == o.xor(o.FeedAll(c, o.TopBits(y, n)), o.Shifted(y, n))
    decreases n
  {
    if n > 0 {
      StepsAreFeeds(o, c, y, n - 1);
      assert o.TopBits(y, n)[..n - 1] == o.TopBits(y, n - 1);
      StepFeedsTop(o, o.FeedAll(c, o.TopBits(y, n - 1)), o.Shifted(y, n - 1));
    }
  }

  /** Symbols spelled out in bits, one after another. */
  function Spell<A>(code: A -> seq<bool>, word: seq<A>): seq<bool>
    decreases |word|
  {
    if word == [] then [] else Spell(code, word[..|word| - 1]) + code(word[|word| - 1])
  }

  lemma {:induction false} SpellConcat<A>(code: A -> seq<bool>, x: seq<A>, y: seq<A>)
    ensures Spell(code, x + y) == Spell(code, x) + Spell(code, y)
    decreases |y|
  {
    if y == [] {
      assert x + y == x;
    } else {
      var n := |y| - 1;
      SpellConcat(code, x, y[..n]);
      assert (x + y)[..|x + y| - 1] == x + y[..n];
    }
  }

  /** A code of fixed width that tells symbols apart tells words of equal length apart. */
  lemma {:induction false} SpellDetermines<A(!new)>(code: A -> seq<bool>, width: nat, x: seq<A>, y: seq<A>)
    requires forall a :: |code(a)| == width
    requires forall a, b :: code(a) == code(b) ==> a == b
    requires |x| == |y|
    ensures |Spell(code, x)| == |Spell(code, y)| == width * |x|
    ensures x != y ==> Spell(code, x) != Spell(code, y)
    decreases |x|
  {
    if x != [] {
      var n := |x| - 1;
      SpellDetermines(code, width, x[..n], y[..n]);
      assert x == x[..n] + [x[n]] && y == y[..n] + [y[n]];
      var p, q := Spell(code, x[..n]), Spell(code, y[..n]);
      assert (p + code(x[n]))[..|p|] == p && (q + code(y[n]))[..|q|] == q;
      assert (p + code(x[n]))[|p|..] == code(x[n]) && (q + code(y[n]))[|q|..] == code(y[n]);
    }
  }
}
