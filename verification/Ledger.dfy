/** Rows of the obligations ledger (app/obligations.py) and what decides their layer. */
module Ledger {
  import opened Wrappers
  import Text

  /** Filing dates, in the order of their ISO text. A blank date is None and sorts before all. */
  type Day = int

  predicate Later(a: Option<Day>, b: Option<Day>) {
    a.Some? && (b.None? || a.value > b.value)
  }

  /** amount_billions: missing, present but not a number, or a number. */
  datatype Amount = Absent | NonNumeric | Num(value: real)

  datatype Mark = NoMark | Amendment | Termination

  datatype Standing = Terminated | Unknown | Amended

  /** One entry of a payment schedule; a blank year is "". */
  datatype ScheduleEntry = ScheduleEntry(year: string, amount: Option<real>)

  datatype Horizon = Horizon(
    schedule: seq<ScheduleEntry>,
    remainderYear: Option<string>,
    remainder: Option<real>,
    afterRemainder: Option<real>)

  const NO_HORIZON := Horizon([], None, None, None)

  datatype Row = Row(
    concept: bool,
    kind: Option<string>,
    source: Option<string>,
    amount: Amount,
    filed: Option<Day>,
    agreementKey: Option<string>,
    mark: Mark,
    standing: Option<Standing>,
    component: Option<bool>,
    headlineKind: Option<string>,
    fiscalYear: Option<string>,
    certainty: Option<string>,
    status: Option<string>,
    revenueMatched: bool,
    defaultTriggered: bool,
    schedule: Option<seq<ScheduleEntry>>,
    horizon: Option<Horizon>,
    proxied: bool,
    ticker: string,
    contentHash: string)
  {
    predicate IsComponent() {
      component == Some(true)
    }

    predicate Positive() {
      amount.Num? && amount.value > 0.0
    }

    function PositiveOrZero(): (r: real)
      ensures r >= 0.0
    {
      if Positive() then amount.value else 0.0
    }

    function SourceText(): string {
      if source.Some? then source.value else ""
    }

    function Layer(): Layer {
      LayerOf(concept, if kind.Some? then kind.value else "", SourceText())
    }
  }

  datatype Layer = Xbrl | EightK | Balance | Note

  function LayerOf(concept: bool, kind: string, source: string): Layer {
    if concept then Xbrl
    else if "8k_" <= kind || Text.Contains(source, "8-K") then EightK
    else if Text.Contains(Text.Lower(source), "balance sheet") then Balance
    else Note
  }

  /** The rows at which keep is true, in order. */
  function Select<T>(xs: seq<T>, keep: seq<bool>): (r: seq<T>)
    requires |keep| == |xs|
    ensures |r| <= |xs|
    ensures forall x :: x in r ==> x in xs
  {
    if xs == [] then []
    else (if keep[0] then [xs[0]] else []) + Select(xs[1..], keep[1..])
  }

  function Map<A, B>(f: A -> B, xs: seq<A>): (r: seq<B>)
    ensures |r| == |xs| && forall i | 0 <= i < |xs| :: r[i] == f(xs[i])
  {
    seq(|xs|, i requires 0 <= i < |xs| => f(xs[i]))
  }

  function Filter<T>(xs: seq<T>, p: T -> bool): (r: seq<T>)
    ensures forall x :: x in r ==> x in xs && p(x)
    ensures forall x :: x in xs && p(x) ==> x in r
    ensures |r| <= |xs|
  {
    if xs == [] then []
    else
      assert xs == [xs[0]] + xs[1..];
      (if p(xs[0]) then [xs[0]] else []) + Filter(xs[1..], p)
  }

  lemma {:induction false} SelectSnoc<T>(xs: seq<T>, keep: seq<bool>, x: T, k: bool)
    requires |keep| == |xs|
    ensures Select(xs + [x], keep + [k]) == Select(xs, keep) + (if k then [x] else [])
  {
    if xs == [] {
      assert xs + [x] == [x] && keep + [k] == [k];
    } else {
      assert (xs + [x])[1..] == xs[1..] + [x] && (keep + [k])[1..] == keep[1..] + [k];
      SelectSnoc(xs[1..], keep[1..], x, k);
    }
  }

  lemma {:induction false} SelectAgree<T>(a: seq<T>, b: seq<T>, keep: seq<bool>)
    requires |a| == |b| == |keep|
    requires forall i | 0 <= i < |keep| && keep[i] :: a[i] == b[i]
    ensures Select(a, keep) == Select(b, keep)
  {
    if a != [] {
      SelectAgree(a[1..], b[1..], keep[1..]);
    }
  }

  lemma {:induction false} SelectMap<A, B>(f: A -> B, xs: seq<A>, keep: seq<bool>)
    requires |keep| == |xs|
    ensures Select(Map(f, xs), keep) == Map(f, Select(xs, keep))
  {
    if xs != [] {
      assert Map(f, xs)[1..] == Map(f, xs[1..]);
      SelectMap(f, xs[1..], keep[1..]);
      var tail := Select(xs[1..], keep[1..]);
      assert Map(f, [xs[0]] + tail) == [f(xs[0])] + Map(f, tail);
    }
  }

  /** Thinning a selection loses length exactly when it drops something. */
  lemma {:induction false} SelectMonotone<T>(xs: seq<T>, fewer: seq<bool>, more: seq<bool>)
    requires |fewer| == |more| == |xs|
    requires forall i | 0 <= i < |xs| :: fewer[i] ==> more[i]
    ensures |Select(xs, fewer)| <= |Select(xs, more)|
    ensures |Select(xs, fewer)| == |Select(xs, more)| ==> fewer == more
  {
    if xs != [] {
      SelectMonotone(xs[1..], fewer[1..], more[1..]);
      assert fewer == [fewer[0]] + fewer[1..] && more == [more[0]] + more[1..];
    }
  }

  lemma {:induction false} FilterSnoc<T>(xs: seq<T>, x: T, p: T -> bool)
    ensures Filter(xs + [x], p) == Filter(xs, p) + (if p(x) then [x] else [])
  {
    if xs == [] {
      assert xs + [x] == [x];
    } else {
      assert (xs + [x])[1..] == xs[1..] + [x];
      FilterSnoc(xs[1..], x, p);
    }
  }

  lemma MapConcat<A, B>(f: A -> B, a: seq<A>, b: seq<A>)
    ensures Map(f, a + b) == Map(f, a) + Map(f, b)
  {
  }

  lemma {:induction false} FilterMap<A, B>(f: A -> B, xs: seq<A>, p: A -> bool, q: B -> bool)
    requires forall i | 0 <= i < |xs| :: p(xs[i]) == q(f(xs[i]))
    ensures Filter(Map(f, xs), q) == Map(f, Filter(xs, p))
  {
    if xs != [] {
      var x, rest, ys := xs[0], xs[1..], Map(f, xs);
      FilterMap(f, rest, p, q);
      assert ys[1..] == Map(f, rest);
      if p(x) {
        MapConcat(f, [x], Filter(rest, p));
        assert Map(f, [x]) == [f(x)];
        assert Filter(ys, q) == [f(x)] + Filter(ys[1..], q);
      }
    }
  }

  lemma {:induction false} FilterFilter<T>(xs: seq<T>, p: T -> bool, q: T -> bool, both: T -> bool)
    requires forall x | x in xs :: both(x) == (p(x) && q(x))
    ensures Filter(Filter(xs, p), q) == Filter(xs, both)
  {
    if xs != [] {
      var x, tail := xs[0], Filter(xs[1..], p);
      FilterFilter(xs[1..], p, q, both);
      assert x in xs && both(x) == (p(x) && q(x));
      assert ([x] + tail)[1..] == tail && [] + tail == tail;
    }
  }

  lemma {:induction false} FilterConcat<T>(a: seq<T>, b: seq<T>, p: T -> bool)
    ensures Filter(a + b, p) == Filter(a, p) + Filter(b, p)
  {
    if a == [] {
      assert a + b == b;
    } else {
      assert (a + b)[1..] == a[1..] + b;
      FilterConcat(a[1..], b, p);
    }
  }

  lemma {:induction false} FilterAll<T>(xs: seq<T>, p: T -> bool)
    requires forall x | x in xs :: p(x)
    ensures Filter(xs, p) == xs
  {
    if xs != [] {
      assert xs[0] in xs;
      FilterAll(xs[1..], p);
      assert xs == [xs[0]] + xs[1..];
    }
  }

  lemma {:induction false} FilterNone<T>(xs: seq<T>, p: T -> bool)
    requires forall x | x in xs :: !p(x)
    ensures Filter(xs, p) == []
  {
    if xs != [] {
      assert xs[0] in xs;
      FilterNone(xs[1..], p);
    }
  }

  lemma CancelOne<A>(x: A, rest: multiset<A>, front: multiset<A>, back: multiset<A>)
    requires multiset{x} + rest == front + (multiset{x} + back)
    ensures rest == front + back
  {
    assert rest == (multiset{x} + rest) - multiset{x};
    assert front + back == (front + (multiset{x} + back)) - multiset{x};
  }

  /** Mapping a rearranged sequence gives a rearrangement of the mapped one. */
  lemma {:induction false} MapPermuted<A, B>(f: A -> B, a: seq<A>, b: seq<A>)
    requires multiset(a) == multiset(b)
    ensures multiset(Map(f, a)) == multiset(Map(f, b))
  {
    assert |multiset(a)| == |a| && |multiset(b)| == |b|;
    if a != [] {
      assert a[0] in multiset(b);
      var j :| 0 <= j < |b| && b[j] == a[0];
      var front, back := b[..j], b[j + 1..];
      assert a == [a[0]] + a[1..];
      assert b == front + ([a[0]] + back);
      assert multiset(b) == multiset(front) + (multiset{a[0]} + multiset(back));
      assert multiset(a) == multiset{a[0]} + multiset(a[1..]);
      CancelOne(a[0], multiset(a[1..]), multiset(front), multiset(back));
      MapPermuted(f, a[1..], front + back);
      MapConcat(f, [a[0]], a[1..]);
      MapConcat(f, front, back);
      MapConcat(f, [a[0]], back);
      MapConcat(f, front, [a[0]] + back);
    }
  }
}
