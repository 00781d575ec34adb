/** Counting timestamps in a window, and the one fact every rate limit of the
    hub rests on: an admission rule that looks back over a window keeps every
    window of that length within the limit, in whatever order stamps arrive. */
module SlidingWindow {

  /** How many stamps lie in the closed interval from lo to hi. */
  function CountIn(stamps: seq<int>, lo: int, hi: int): nat {
    if stamps == [] then 0
    else
      CountIn(stamps[..|stamps| - 1], lo, hi)
      + if lo <= stamps[|stamps| - 1] <= hi then 1 else 0
  }

  /** How many stamps are not older than since (SQL: created_at >= since). */
  function CountSince(stamps: seq<int>, since: int): nat {
    if stamps == [] then 0
    else
      CountSince(stamps[..|stamps| - 1], since)
      + if since <= stamps[|stamps| - 1] then 1 else 0
  }

  /** How many stamps lie in the closed interval of the given length that starts at from. */
  function CountFrom(stamps: seq<int>, from: int, length: int): nat {
    CountIn(stamps, from, from + length)
  }

  /** No closed interval of the given length holds more than cap stamps. */
  ghost predicate Capped(stamps: seq<int>, length: int, cap: int) {
    forall x :: CountFrom(stamps, x, length) <= cap
  }

  lemma CountInAppend(stamps: seq<int>, stamp: int, lo: int, hi: int)
    ensures CountIn(stamps + [stamp], lo, hi)
         == CountIn(stamps, lo, hi) + if lo <= stamp <= hi then 1 else 0
  {
    assert (stamps + [stamp])[..|stamps|] == stamps;
  }

  lemma CountSinceAppend(stamps: seq<int>, stamp: int, since: int)
    ensures CountSince(stamps + [stamp], since)
         == CountSince(stamps, since) + if since <= stamp then 1 else 0
  {
    assert (stamps + [stamp])[..|stamps|] == stamps;
  }

  lemma {:induction false} CountInConcat(left: seq<int>, right: seq<int>, lo: int, hi: int)
    ensures CountIn(left + right, lo, hi) == CountIn(left, lo, hi) + CountIn(right, lo, hi)
  {
    if right == [] {
      assert left + right == left;
    } else {
      var n := |right| - 1;
      assert left + right == (left + right[..n]) + [right[n]];
      CountInAppend(left + right[..n], right[n], lo, hi);
      CountInConcat(left, right[..n], lo, hi);
    }
  }

  /** Looking back from a stamp inside the interval sees the whole interval. */
  lemma {:induction false} IntervalWithinLookback(stamps: seq<int>, lo: int, hi: int, since: int)
    requires since <= lo
    ensures CountIn(stamps, lo, hi) <= CountSince(stamps, since)
  {
    if stamps != [] {
      IntervalWithinLookback(stamps[..|stamps| - 1], lo, hi, since);
    }
  }

  /** Stamps on record and stamps admitted but not yet recorded, in every closed interval. */
  ghost predicate CappedTogether(recorded: seq<int>, waiting: seq<int>, length: int, cap: int) {
    forall x :: CountFrom(recorded, x, length) + CountFrom(waiting, x, length) <= cap
  }

  lemma {:induction false} CountIsNoMore(stamps: seq<int>, lo: int, hi: int)
    ensures CountIn(stamps, lo, hi) <= |stamps|
  {
    if stamps != [] {
      CountIsNoMore(stamps[..|stamps| - 1], lo, hi);
    }
  }

  /** The admission rule looks at the recorded stamps alone, and keeps the cap
      but for as many stamps as were waiting, although the new stamp may be older
      than stamps already present: the clock was read before the lock. */
  lemma AdmissionKeepsCap(recorded: seq<int>, waiting: seq<int>, stamp: int, length: nat, cap: nat, others: nat)
    requires CappedTogether(recorded, waiting, length, cap + others) && |waiting| <= others
    requires CountSince(recorded, stamp - length) < cap
    ensures CappedTogether(recorded, waiting + [stamp], length, cap + others)
  {
    forall x ensures CountFrom(recorded, x, length) + CountFrom(waiting + [stamp], x, length) <= cap + others {
      CountInAppend(waiting, stamp, x, x + length);
      assert CountFrom(recorded, x, length) + CountFrom(waiting, x, length) <= cap + others;
      if x <= stamp <= x + length {
        IntervalWithinLookback(recorded, x, x + length, stamp - length);
        CountIsNoMore(waiting, x, x + length);
      }
    }
  }

  function Repeated<T>(x: T, n: nat): seq<T> {
    if n == 0 then [] else Repeated(x, n - 1) + [x]
  }

  lemma {:induction false} RepeatedElements<T>(x: T, n: nat)
    ensures |Repeated(x, n)| == n
    ensures forall i :: 0 <= i < n ==> Repeated(x, n)[i] == x
  {
    if n != 0 {
      RepeatedElements(x, n - 1);
    }
  }

  lemma {:induction false} CountRepeated(stamp: int, n: nat, lo: int, hi: int)
    ensures CountIn(Repeated(stamp, n), lo, hi) == if lo <= stamp <= hi then n else 0
    ensures CountSince(Repeated(stamp, n), lo) == if lo <= stamp then n else 0
  {
    if n != 0 {
      CountRepeated(stamp, n - 1, lo, hi);
      CountInAppend(Repeated(stamp, n - 1), stamp, lo, hi);
      CountSinceAppend(Repeated(stamp, n - 1), stamp, lo);
    }
  }

  /** How many windows of the given width cover span points. */
  function Windows(span: nat, width: nat): nat
    requires 0 < width
  {
    (span + width - 1) / width
  }

  lemma WindowsStep(span: nat, width: nat)
    requires 0 < width
    ensures span == 0 ==> Windows(span, width) == 0
    ensures 0 < span <= width ==> Windows(span, width) == 1
    ensures width < span ==> Windows(span, width) == Windows(span - width, width) + 1
  {
    if span == 0 {
      DivisionIs(width - 1, width, 0, width - 1);
    } else if span <= width {
      DivisionIs(span + width - 1, width, 1, span - 1);
    } else {
      AddDivisor(span - 1, width);
    }
  }

  lemma DivisionIs(n: nat, d: nat, q: nat, r: nat)
    requires n == d * q + r && r < d
    ensures n / d == q
  {
    var q', r' := n / d, n % d;
    assert n == d * q' + r';
    assert q' < q ==> d * (q' + 1) <= d * q;
    assert q < q' ==> d * (q + 1) <= d * q';
  }

  lemma AddDivisor(n: nat, d: nat)
    requires 0 < d
    ensures (n + d) / d == n / d + 1
  {
    var q, r := n / d, n % d;
    assert n == d * q + r;
    DivisionIs(n + d, d, q + 1, r);
  }
}
