/** Choosing among the services of a type in turn, past the unhealthy ones. */
module RoundRobin {
  import opened Basics
  import opened Bytes

  const MAX_SERVICE_HEALTH := 100
  const HIGH_SERVICE_HEALTH := 80
  const SUCCESS_HEALTH := 1
  const TIMEOUT_HEALTH := 2
  const PROBES := 10

  // ----- health

  /** The services that are registered, and the health of those that have answered or timed out. */
  datatype Health = Health(valid: set<nat>, marks: map<nat, nat>)

  /** `draw` is the random number taken when the mark is low. */
  predicate IsHealthy(h: Health, id: nat, draw: nat) {
    && id in h.valid
    && (id !in h.marks || h.marks[id] >= HIGH_SERVICE_HEALTH || draw <= h.marks[id])
  }

  /** Healthy whatever is drawn. */
  predicate IsSure(h: Health, id: nat) {
    id in h.valid && (id !in h.marks || h.marks[id] >= HIGH_SERVICE_HEALTH)
  }

  predicate InRange(h: Health) { forall id | id in h.marks :: h.marks[id] <= MAX_SERVICE_HEALTH }

  function Marked(h: Health, id: nat, timeout: bool): (g: Health)
    requires InRange(h)
    ensures InRange(g)
  {
    var mark := if id in h.marks then h.marks[id] else MAX_SERVICE_HEALTH;
    var mark' :=
      if timeout then (if mark >= TIMEOUT_HEALTH then mark - TIMEOUT_HEALTH else 0)
      else if mark + SUCCESS_HEALTH <= MAX_SERVICE_HEALTH then mark + SUCCESS_HEALTH else MAX_SERVICE_HEALTH;
    h.(marks := h.marks[id := mark'])
  }

  /** Of the numbers that may be drawn, 0 to 99, a low mark lets mark + 1 through and a high one all. */
  lemma HealthyDraws(h: Health, id: nat)
    requires id in h.valid && id in h.marks
    ensures (set d | 0 <= d < 100 && IsHealthy(h, id, d)) == UpTo(if h.marks[id] < 80 then h.marks[id] + 1 else 100)
    ensures IsSure(h, id) <==> h.marks[id] >= 80
  {
  }

  /** The n numbers below n. */
  function UpTo(n: nat): (s: set<nat>)
    ensures |s| == n && forall k: nat :: k in s <==> k < n
  {
    if n == 0 then {} else UpTo(n - 1) + {n - 1}
  }

  function Answered(h: Health, id: nat, times: nat): (g: Health)
    requires InRange(h)
    ensures InRange(g)
  {
    if times == 0 then h else Marked(Answered(h, id, times - 1), id, false)
  }

  /** A timeout costs two answers: after t timeouts in a row it takes 2t - 20 answers to be sure again, at most 80. */
  lemma SureAgain(h: Health, id: nat, timeouts: nat, answers: nat)
    requires InRange(h) && id in h.valid && id !in h.marks
    ensures IsSure(Answered(TimedOut(h, id, timeouts), id, answers), id) <==> answers >= (if timeouts <= 50 then 2 * timeouts - 20 else 80)
  {
    MarkAfter(h, id, timeouts);
    MarkAfterAnswers(TimedOut(h, id, timeouts), id, answers);
  }

  lemma {:induction false} MarkAfterAnswers(h: Health, id: nat, times: nat)
    requires InRange(h) && id in h.valid
    ensures var g := Answered(h, id, times);
            && g.valid == h.valid
            && (id in h.marks || times > 0 ==> id in g.marks && g.marks[id] == Min(100, (if id in h.marks then h.marks[id] else 100) + times))
            && (id !in h.marks && times == 0 ==> id !in g.marks)
  {
    if times > 0 {
      MarkAfterAnswers(h, id, times - 1);
    }
  }

  function TimedOut(h: Health, id: nat, times: nat): (g: Health)
    requires InRange(h)
    ensures InRange(g)
  {
    if times == 0 then h else Marked(TimedOut(h, id, times - 1), id, true)
  }

  /** A service without a mark stays sure for exactly ten timeouts in a row. */
  lemma {:induction false} SureForTenTimeouts(h: Health, id: nat, times: nat)
    requires InRange(h) && id in h.valid && id !in h.marks
    ensures IsSure(TimedOut(h, id, times), id) <==> times <= 10
  {
    MarkAfter(h, id, times);
  }

  lemma {:induction false} MarkAfter(h: Health, id: nat, times: nat)
    requires InRange(h) && id in h.valid && id !in h.marks
    ensures var g := TimedOut(h, id, times);
            && g.valid == h.valid
            && (times > 0 ==> id in g.marks && g.marks[id] == if times <= 50 then 100 - 2 * times else 0)
            && (times == 0 ==> id !in g.marks)
  {
    if times > 0 {
      MarkAfter(h, id, times - 1);
    }
  }

  // ----- the counter

  /** The index that a counter value stands for in a list of n. */
  function Index(counter: nat, n: nat): (i: nat)
    requires n > 0
    ensures i < n
  {
    counter % UINT32_COUNT % n
  }

  /** The sum of g over m numbers from a on. */
  function Sum(g: nat -> nat, a: nat, m: nat): nat {
    if m == 0 then 0 else Sum(g, a, m - 1) + g(a + m - 1)
  }

  lemma {:induction false} Telescope(f: nat -> nat, g: nat -> nat, a: nat, m: nat)
    requires forall t: nat | a <= t < a + m :: f(t + 1) == f(t) + g(t)
    ensures Sum(g, a, m) == f(a + m) - f(a)
  {
    if m > 0 {
      Telescope(f, g, a, m - 1);
      assert f(a + m - 1 + 1) == f(a + m - 1) + g(a + m - 1);
    }
  }

  lemma {:induction false} SumOfTwo(g: nat -> nat, a: nat, m: nat)
    requires m > 0 && g(a) > 0
    ensures Sum(g, a, m) > 0 && (m > 1 && g(a + m - 1) > 0 ==> Sum(g, a, m) > 1)
  {
    if m > 1 {
      SumOfTwo(g, a, m - 1);
    } else {
      assert Sum(g, a, 1) == Sum(g, a, 0) + g(a);
    }
  }

  function Hits(n: nat, j: nat): nat -> nat
    requires n > 0
  {
    (counter: nat) => if Index(counter, n) == j then 1 else 0
  }

  /** How often index j comes up in m turns of the counter. */
  function Count(start: nat, m: nat, n: nat, j: nat): nat
    requires n > 0
  {
    Sum(Hits(n, j), start, m)
  }

  ghost predicate Balanced(start: nat, m: nat, n: nat)
    requires n > 0
  {
    forall j: nat | j < n :: m / n <= Count(start, m, n, j) <= (m + n - 1) / n
  }

  /** One more before a division. */
  lemma DivNext(x: nat, n: nat)
    requires n > 0
    ensures (x + 1) / n == x / n + if x % n == n - 1 then 1 else 0
  {
    if x % n == n - 1 {
      ModUnique(x + 1, n, x / n + 1, 0);
    } else {
      ModUnique(x + 1, n, x / n, x % n + 1);
    }
  }

  /** How many of the numbers below x leave j. */
  function Below(x: nat, n: nat, j: nat): nat
    requires n > 0 && j < n
  {
    (x + n - 1 - j) / n
  }

  lemma ModShift(x: nat, n: nat, j: nat)
    requires n > 0 && j < n
    ensures (x + n - 1 - j) % n == n - 1 <==> x % n == j
  {
    var q, r := x / n, x % n;
    if r >= j + 1 {
      ModUnique(x + n - 1 - j, n, q + 1, r - 1 - j);
    } else {
      ModUnique(x + n - 1 - j, n, q, r + n - 1 - j);
    }
  }

  lemma BelowNext(x: nat, n: nat, j: nat)
    requires n > 0 && j < n
    ensures Below(x + 1, n, j) == Below(x, n, j) + if x % n == j then 1 else 0
  {
    DivNext(x + n - 1 - j, n);
    ModShift(x, n, j);
  }

  /** The counter may be taken without its wrap. */
  ghost predicate Plain(start: nat, m: nat, n: nat)
    requires n > 0
  {
    forall t: nat | start <= t < start + m :: Index(t, n) == t % n
  }

  lemma HitPlain(x: nat, n: nat, j: nat)
    requires n > 0 && j < n && Index(x, n) == x % n
    ensures Below(x + 1, n, j) == Below(x, n, j) + Hits(n, j)(x)
  {
    BelowNext(x, n, j);
  }

  lemma CountPlain(start: nat, m: nat, n: nat, j: nat)
    requires n > 0 && j < n && Plain(start, m, n)
    ensures Count(start, m, n, j) == Below(start + m, n, j) - Below(start, n, j)
  {
    var f := (x: nat) => Below(x, n, j);
    forall t: nat | start <= t < start + m ensures f(t + 1) == f(t) + Hits(n, j)(t) {
      assert Index(t, n) == t % n;
      HitPlain(t, n, j);
    }
    Telescope(f, Hits(n, j), start, m);
  }

  /** Adding m before a division adds the quotient of m, rounded down or up. */
  lemma DivAdd(y: nat, m: nat, n: nat)
    requires n > 0
    ensures m / n <= (y + m) / n - y / n <= (m + n - 1) / n
  {
    var q, r := m / n, m % n;
    var s := y % n;
    assert y + m == n * (y / n + q) + (s + r) by {
      assert n * (y / n + q) == n * (y / n) + n * q;
    }
    if s + r < n {
      ModUnique(y + m, n, y / n + q, s + r);
    } else {
      assert y + m == n * (y / n + q + 1) + (s + r - n) by {
        assert n * (y / n + q + 1) == n * (y / n + q) + n;
      }
      ModUnique(y + m, n, y / n + q + 1, s + r - n);
    }
    RoundUp(m, n);
  }

  lemma RoundUp(m: nat, n: nat)
    requires n > 0
    ensures (m + n - 1) / n == m / n + if m % n == 0 then 0 else 1
  {
    if m % n == 0 {
      ModUnique(m + n - 1, n, m / n, n - 1);
    } else {
      ModUnique(m + n - 1, n, m / n + 1, m % n - 1);
    }
  }

  lemma PlainBalanced(start: nat, m: nat, n: nat)
    requires n > 0 && Plain(start, m, n)
    ensures Balanced(start, m, n)
  {
    forall j: nat | j < n ensures m / n <= Count(start, m, n, j) <= (m + n - 1) / n {
      CountPlain(start, m, n, j);
      DivAdd(start + n - 1 - j, m, n);
    }
  }

  /** As long as the counter does not wrap, every index comes up floor(m/n) or ceil(m/n) times. */
  lemma BalancedWithoutWrap(start: nat, m: nat, n: nat)
    requires n > 0 && start + m <= UINT32_COUNT
    ensures Balanced(start, m, n)
  {
    PlainBalanced(start, m, n);
  }

  lemma DividesPlain(start: nat, m: nat, n: nat)
    requires n > 0 && UINT32_COUNT % n == 0
    ensures Plain(start, m, n)
  {
    forall t: nat | start <= t < start + m ensures Index(t, n) == t % n {
      ModMod(t, UINT32_COUNT, n);
    }
  }

  lemma ModMod(x: nat, big: nat, n: nat)
    requires n > 0 && big > 0 && big % n == 0
    ensures x % big % n == x % n
  {
    var a, b, c := x / big, big / n, x % big;
    Distribute(n, b, a, c / n);
    ModUnique(x, n, b * a + c / n, c % n);
  }

  lemma Distribute(n: nat, b: nat, a: nat, d: nat)
    ensures n * (b * a + d) == (n * b) * a + n * d
  {
  }

  /** Where the counter value before the wrap lands, if n does not divide 2^32. */
  lemma WrapPlace(n: nat) returns (e: nat)
    requires 0 < n <= UINT32_COUNT && UINT32_COUNT % n != 0
    ensures e + 2 <= n && Index(UINT32_COUNT - 1 - e, n) == 0
  {
    e := (UINT32_COUNT - 1) % n;
    var q := (UINT32_COUNT - 1) / n;
    if e == n - 1 {
      ModUnique(UINT32_COUNT, n, q + 1, 0);
    }
    ModUnique(UINT32_COUNT - 1 - e, n, q, 0);
  }

  /** The wrap repeats index 0 too early unless n divides 2^32. */
  lemma WrapUnbalances(n: nat) returns (start: nat, m: nat)
    requires 0 < n <= UINT32_COUNT && UINT32_COUNT % n != 0
    ensures start < UINT32_COUNT && !Balanced(start, m, n)
  {
    var e := WrapPlace(n);
    start, m := UINT32_COUNT - 1 - e, e + 2;
    WrapHits(n, start, m);
    AtMostOne(m, n);
  }

  lemma WrapHits(n: nat, start: nat, m: nat)
    requires n > 0 && 2 <= m && start + m == UINT32_COUNT + 1 && Index(start, n) == 0
    ensures Count(start, m, n, 0) > 1
  {
    ModUnique(UINT32_COUNT, UINT32_COUNT, 1, 0);
    ModUnique(0, n, 0, 0);
    SumOfTwo(Hits(n, 0), start, m);
  }

  lemma AtMostOne(m: nat, n: nat)
    requires 0 < m <= n
    ensures (m + n - 1) / n == 1
  {
    ModUnique(m + n - 1, n, 1, m - 1);
  }

  /** Whatever the counter starts from, which nothing initialises, the choice is fair for ever exactly when the
      number of services divides 2^32. */
  lemma AlwaysBalancedIff(n: nat)
    requires 0 < n <= UINT32_COUNT
    ensures (forall start: nat, m: nat | start < UINT32_COUNT :: Balanced(start, m, n)) <==> UINT32_COUNT % n == 0
  {
    if UINT32_COUNT % n == 0 {
      forall start: nat, m: nat | start < UINT32_COUNT ensures Balanced(start, m, n) {
        DividesPlain(start, m, n);
        PlainBalanced(start, m, n);
      }
    } else {
      var start, m := WrapUnbalances(n);
    }
  }

  // ----- one selection

  /** The services that a selection may look at, in order. */
  function Probed(ids: seq<nat>, start: nat): (picks: seq<nat>)
    requires ids != []
    ensures |picks| == PROBES && forall p | 0 <= p < PROBES :: picks[p] == ids[Index(start + p, |ids|)]
  {
    seq(PROBES, p requires 0 <= p < PROBES => ids[Index(start + p, |ids|)])
  }

  /** The place of the first healthy pick from place k on, or the end. */
  function FirstHealthy(h: Health, picks: seq<nat>, draws: nat -> nat, k: nat): (p: nat)
    requires k <= |picks|
    ensures k <= p <= |picks|
    ensures p < |picks| ==> IsHealthy(h, picks[p], draws(p))
    ensures forall i | k <= i < p :: !IsHealthy(h, picks[i], draws(i))
    decreases |picks| - k
  {
    if k == |picks| || IsHealthy(h, picks[k], draws(k)) then k else FirstHealthy(h, picks, draws, k + 1)
  }

  function Chosen(h: Health, picks: seq<nat>, draws: nat -> nat): nat {
    var p := FirstHealthy(h, picks, draws, 0);
    if p < |picks| then picks[p] else 0
  }

  function Selected(h: Health, ids: seq<nat>, start: nat, draws: nat -> nat): nat {
    if ids == [] then 0 else Chosen(h, Probed(ids, start), draws)
  }

  ghost predicate SomeSure(h: Health, ids: seq<nat>) { exists k | 0 <= k < |ids| :: IsSure(h, ids[k]) }

  /** With some service sure to be healthy, the selection does not fail. */
  ghost predicate NeverFails(ids: seq<nat>, start: nat) {
    forall h: Health, draws: nat -> nat | SomeSure(h, ids) :: Selected(h, ids, start, draws) != 0
  }

  ghost predicate ProbesAll(ids: seq<nat>, start: nat)
    requires ids != []
  {
    forall k | 0 <= k < |ids| :: ids[k] in Probed(ids, start)
  }

  /** If one service alone is registered, it is chosen only when it is picked. */
  lemma ChosenIsPicked(picks: seq<nat>, draws: nat -> nat, id: nat)
    ensures Chosen(Health({id}, map[]), picks, draws) != 0 ==> id in picks
  {
    var p := FirstHealthy(Health({id}, map[]), picks, draws, 0);
    if p < |picks| {
      assert picks[p] == id;
    }
  }

  /** The selection cannot fail exactly when its ten probes reach every service. */
  lemma NeverFailsIff(ids: seq<nat>, start: nat)
    requires ids != [] && 0 !in ids
    ensures NeverFails(ids, start) <==> ProbesAll(ids, start)
  {
    var picks := Probed(ids, start);
    if ProbesAll(ids, start) {
      forall h: Health, draws: nat -> nat | SomeSure(h, ids) ensures Selected(h, ids, start, draws) != 0 {
        var k :| 0 <= k < |ids| && IsSure(h, ids[k]);
      }
    } else {
      var k :| 0 <= k < |ids| && ids[k] !in picks;
      var h, draws := Health({ids[k]}, map[]), (i: nat) => 0;
      ChosenIsPicked(picks, draws, ids[k]);
      assert IsSure(h, ids[k]);
      assert SomeSure(h, ids) && Selected(h, ids, start, draws) == 0;
    }
  }

  /** Up to ten services are all reached, unless the counter wraps in the middle and their number does not divide
      2^32. */
  lemma TenAreProbed(ids: seq<nat>, start: nat)
    requires 0 < |ids| <= PROBES && (start + |ids| <= UINT32_COUNT || UINT32_COUNT % |ids| == 0)
    ensures ProbesAll(ids, start)
  {
    forall k | 0 <= k < |ids| ensures ids[k] in Probed(ids, start) {
      var p := TurnOf(start, |ids|, k);
      if UINT32_COUNT % |ids| == 0 {
        ModMod(start + p, UINT32_COUNT, |ids|);
      }
      assert Probed(ids, start)[p] == ids[k];
    }
  }

  /** The turn at which index j comes up. */
  lemma TurnOf(start: nat, n: nat, j: nat) returns (p: nat)
    requires n > 0 && j < n
    ensures p < n && (start + p) % n == j
  {
    var q, r := start / n, start % n;
    if r <= j {
      p := j - r;
      ModUnique(start + p, n, q, j);
    } else {
      p := j + n - r;
      TurnsOver(n, q);
      ModUnique(start + p, n, q + 1, j);
    }
  }

  lemma TurnsOver(n: nat, q: nat)
    ensures n * (q + 1) == n * q + n
  {
  }

  // ----- when the probes reach every service

  /** The index of the last counter value before the wrap. */
  function LastIndex(n: nat): (e: nat)
    requires n > 0
    ensures e < n
  {
    (UINT32_COUNT - 1) % n
  }

  /** Ten probes from `start` reach n distinct services: the counter does not wrap among the first n, or wraps so
      soon that n of them follow, or the indices go on around the wrap as if there were none, or those before the
      wrap end where those after it leave off. */
  predicate Reaches(n: nat, start: nat)
    requires n > 0
  {
    n <= PROBES
    && (|| start + n <= UINT32_COUNT
        || UINT32_COUNT - start <= PROBES - n
        || LastIndex(n) == n - 1
        || LastIndex(n) + n < PROBES)
  }

  lemma LastDivides(n: nat)
    requires 0 < n <= PROBES
    ensures LastIndex(n) == n - 1 <==> UINT32_COUNT % n == 0
  {
    DivNext(UINT32_COUNT - 1, n);
    var q := (UINT32_COUNT - 1) / n;
    if LastIndex(n) == n - 1 {
      TurnsOver(n, q);
      ModUnique(UINT32_COUNT, n, q + 1, 0);
    } else {
      ModUnique(UINT32_COUNT, n, q, LastIndex(n) + 1);
    }
  }

  /** The index of a probe, seen from the wrap. */
  lemma IndexAround(start: nat, n: nat, p: nat)
    requires 0 < n <= PROBES && p < PROBES && start < UINT32_COUNT && UINT32_COUNT - start < n
    ensures var r, e := UINT32_COUNT - start, LastIndex(n);
            Index(start + p, n) == if p >= r then (p - r) % n else if r - 1 - p <= e then e - (r - 1 - p) else e - (r - 1 - p) + n
  {
    var r, e, q := UINT32_COUNT - start, LastIndex(n), (UINT32_COUNT - 1) / n;
    if p >= r {
      ModUnique(start + p, UINT32_COUNT, 1, p - r);
    } else if r - 1 - p <= e {
      ModUnique(start + p, n, q, e - (r - 1 - p));
    } else {
      TurnsOver(n, q - 1);
      ModUnique(start + p, n, q - 1, e - (r - 1 - p) + n);
    }
  }

  /** Where the wrap does no harm, each index has its probe. */
  lemma ProbeOf(start: nat, n: nat, j: nat) returns (p: nat)
    requires n > 0 && start < UINT32_COUNT && Reaches(n, start) && j < n
    ensures p < PROBES && Index(start + p, n) == j
  {
    var r, e := UINT32_COUNT - start, LastIndex(n);
    if start + n <= UINT32_COUNT {
      p := TurnOf(start, n, j);
    } else if e == n - 1 {
      LastDivides(n);
      p := TurnOf(start, n, j);
      ModMod(start + p, UINT32_COUNT, n);
    } else if j < PROBES - r {
      p := r + j;
      IndexAround(start, n, p);
      ModUnique(j, n, 0, j);
    } else {
      p := j + r - (e + 1) - n;
      IndexAround(start, n, p);
    }
  }

  /** Where it does, this index has none. */
  lemma NoProbeOf(start: nat, n: nat, p: nat)
    requires 0 < n <= PROBES && start < UINT32_COUNT && !Reaches(n, start) && p < PROBES
    ensures var missed := Max(PROBES - (UINT32_COUNT - start), LastIndex(n) + 1);
            missed < n && Index(start + p, n) != missed
  {
    IndexAround(start, n, p);
    var r := UINT32_COUNT - start;
    if p >= r {
      ModUnique(p - r, n, 0, p - r);
    }
  }

  function Max(a: int, b: int): int { if a < b then b else a }

  ghost predicate Distinct(ids: seq<nat>) { forall i, j | 0 <= i < j < |ids| :: ids[i] != ids[j] }

  function Elements(s: seq<nat>): set<nat> { set x | x in s }

  lemma ElementsSnoc(s: seq<nat>)
    requires s != []
    ensures Elements(s) == Elements(s[..|s| - 1]) + {s[|s| - 1]}
  {
    assert s == s[..|s| - 1] + [s[|s| - 1]];
  }

  /** As many elements as places if they are distinct, and never more. */
  lemma {:induction false} ElementsCount(s: seq<nat>)
    ensures |Elements(s)| <= |s| && (Distinct(s) ==> |Elements(s)| == |s|)
  {
    if s != [] {
      ElementsSnoc(s);
      ElementsCount(s[..|s| - 1]);
    } else {
      assert Elements(s) == {};
    }
  }

  lemma {:induction false} SubsetSize(a: set<nat>, b: set<nat>)
    requires a <= b
    ensures |a| <= |b|
  {
    if a != {} {
      var x :| x in a;
      SubsetSize(a - {x}, b - {x});
    }
  }

  /** More distinct services than picks cannot all be picked. */
  lemma TooMany(ids: seq<nat>, picks: seq<nat>)
    requires Distinct(ids) && forall k | 0 <= k < |ids| :: ids[k] in picks
    ensures |ids| <= |picks|
  {
    ElementsCount(ids);
    ElementsCount(picks);
    SubsetSize(Elements(ids), Elements(picks));
  }

  /** The ten probes reach every one of a list of distinct services exactly when number and counter allow it. */
  lemma ProbesAllIff(ids: seq<nat>, start: nat)
    requires ids != [] && Distinct(ids) && start < UINT32_COUNT
    ensures ProbesAll(ids, start) <==> Reaches(|ids|, start)
  {
    var n, picks := |ids|, Probed(ids, start);
    if Reaches(n, start) {
      forall k | 0 <= k < n ensures ids[k] in picks {
        var p := ProbeOf(start, n, k);
        assert picks[p] == ids[k];
      }
    } else if n <= PROBES {
      var missed: nat := Max(PROBES - (UINT32_COUNT - start), LastIndex(n) + 1);
      NoProbeOf(start, n, 0);
      forall p | 0 <= p < PROBES ensures picks[p] != ids[missed] {
        NoProbeOf(start, n, p);
        assert Index(start + p, n) != missed;
      }
      assert ids[missed] !in picks;
    } else if ProbesAll(ids, start) {
      TooMany(ids, picks);
    }
  }

  /** With some service sure to be healthy, the selection from distinct services never fails exactly then. */
  lemma NeverFailsExactly(ids: seq<nat>, start: nat)
    requires ids != [] && 0 !in ids && Distinct(ids) && start < UINT32_COUNT
    ensures NeverFails(ids, start) <==> Reaches(|ids|, start)
  {
    NeverFailsIff(ids, start);
    ProbesAllIff(ids, start);
  }

  /** In numbers: up to six services and eight are always reached, more than ten never, and seven, nine and ten
      unless the counter is about to wrap. */
  lemma ReachesByNumber(n: nat, start: nat)
    requires 0 < n && start < UINT32_COUNT
    ensures n <= 6 || n == 8 ==> Reaches(n, start)
    ensures n == 7 || n == 9 || n == 10 ==>
              (Reaches(n, start) <==> start + n <= UINT32_COUNT || UINT32_COUNT - start <= PROBES - n)
    ensures n > 10 ==> !Reaches(n, start)
  {
    if n <= 10 {
      assert LastIndex(n) == [0, 1, 0, 3, 0, 3, 3, 7, 3, 5][n - 1];
    }
  }

  /** With ten services one is missed when the counter wraps in the middle. */
  lemma WrapMissesOne(ids: seq<nat>)
    requires |ids| == PROBES && Distinct(ids)
    ensures !ProbesAll(ids, UINT32_COUNT - 5)
  {
    ProbesAllIff(ids, UINT32_COUNT - 5);
    ReachesByNumber(PROBES, UINT32_COUNT - 5);
  }

  // ----- the objects

  class CRoundRobinServiceSelector {
    var nextIndex: nat

    ghost predicate Valid()
      reads this
    {
      nextIndex < UINT32_COUNT
    }

    /** The counter is not initialised: it starts from whatever is there. */
    constructor (garbage: nat)
      requires garbage < UINT32_COUNT
      ensures Valid() && nextIndex == garbage
    {
      nextIndex := garbage;
    }

    method Select(h: Health, ids: seq<nat>, draws: nat -> nat) returns (id: nat)
      requires Valid()
      modifies this
      ensures Valid() && id == Selected(h, ids, old(nextIndex), draws)
      ensures ids == [] ==> nextIndex == old(nextIndex)
      ensures ids != [] ==>
                var p := FirstHealthy(h, Probed(ids, old(nextIndex)), draws, 0);
                nextIndex == (old(nextIndex) + if p < PROBES then p + 1 else PROBES) % UINT32_COUNT
    {
      if ids == [] {
        return 0;
      }
      ghost var start, picks := nextIndex, Probed(ids, nextIndex);
      for i := 0 to PROBES
        invariant Valid() && nextIndex == (start + i) % UINT32_COUNT
        invariant FirstHealthy(h, picks, draws, 0) == FirstHealthy(h, picks, draws, i)
      {
        var pick := Next(ids, start, i);
        if IsHealthy(h, pick, draws(i)) {
          return pick;
        }
      }
      id := 0;
    }

    /** The service the counter stands for, and one turn of the counter. */
    method Next(ids: seq<nat>, ghost start: nat, ghost i: nat) returns (pick: nat)
      requires ids != [] && i < PROBES && nextIndex == (start + i) % UINT32_COUNT
      modifies this
      ensures pick == Probed(ids, start)[i] && nextIndex == (start + i + 1) % UINT32_COUNT
    {
      WrapAgain(start + i, |ids|);
      var index := nextIndex % |ids|;
      nextIndex := (nextIndex + 1) % UINT32_COUNT;
      pick := ids[index];
    }

    /** A run of selections from a list where every service is sure. */
    method SelectMany(h: Health, ids: seq<nat>, draws: nat -> nat, m: nat) returns (chosen: seq<nat>)
      requires Valid() && ids != [] && forall k | 0 <= k < |ids| :: IsSure(h, ids[k])
      modifies this
      ensures Valid() && chosen == Turns(Picker(ids), old(nextIndex), m)
    {
      ghost var start := nextIndex;
      chosen := [];
      for t := 0 to m
        invariant Valid() && chosen == Turns(Picker(ids), start, t) && nextIndex == (start + t) % UINT32_COUNT
      {
        TurnIsChosen(h, ids, start + t, draws);
        var id := Select(h, ids, draws);
        chosen := chosen + [id];
      }
    }
  }

  /** Where every service is sure, the first is chosen; of the count of all turns the counter holds the low 32
      bits. */
  lemma TurnIsChosen(h: Health, ids: seq<nat>, turn: nat, draws: nat -> nat)
    requires ids != [] && forall k | 0 <= k < |ids| :: IsSure(h, ids[k])
    ensures var counter := turn % UINT32_COUNT;
            && FirstHealthy(h, Probed(ids, counter), draws, 0) == 0
            && Selected(h, ids, counter, draws) == Picker(ids)(turn)
            && (counter + 1) % UINT32_COUNT == (turn + 1) % UINT32_COUNT
  {
    WrapAgain(turn, |ids|);
  }

  /** The service that a counter value stands for. */
  function Picker(ids: seq<nat>): nat -> nat
    requires ids != []
  {
    (counter: nat) => ids[Index(counter, |ids|)]
  }

  /** The picks of m turns of the counter. */
  function Turns(pick: nat -> nat, start: nat, m: nat): (chosen: seq<nat>)
    ensures |chosen| == m
  {
    if m == 0 then [] else Turns(pick, start, m - 1) + [pick(start + m - 1)]
  }

  lemma {:induction false} TurnsSum(pick: nat -> nat, g: nat -> nat, start: nat, m: nat, x: nat)
    requires forall t: nat | start <= t < start + m :: g(t) == if pick(t) == x then 1 else 0
    ensures multiset(Turns(pick, start, m))[x] == Sum(g, start, m)
  {
    if m > 0 {
      TurnsSum(pick, g, start, m - 1, x);
      var last := pick(start + m - 1);
      assert multiset(Turns(pick, start, m)) == multiset(Turns(pick, start, m - 1)) + multiset{last};
    }
  }

  /** How often a service is chosen is how often its index comes up. */
  lemma TurnsCount(ids: seq<nat>, start: nat, m: nat, j: nat)
    requires j < |ids| && Distinct(ids)
    ensures multiset(Turns(Picker(ids), start, m))[ids[j]] == Count(start, m, |ids|, j)
  {
    forall t: nat | start <= t < start + m ensures Hits(|ids|, j)(t) == if Picker(ids)(t) == ids[j] then 1 else 0 {
      var i := Index(t, |ids|);
      assert ids[i] == ids[j] <==> i == j;
    }
    TurnsSum(Picker(ids), Hits(|ids|, j), start, m, ids[j]);
  }

  /** Every service is chosen floor(m/n) or ceil(m/n) times, before the counter wraps and, if the number of
      services divides 2^32, ever after. */
  lemma FairTurns(ids: seq<nat>, start: nat, m: nat, j: nat)
    requires j < |ids| && Distinct(ids) && (start + m <= UINT32_COUNT || UINT32_COUNT % |ids| == 0)
    ensures m / |ids| <= multiset(Turns(Picker(ids), start, m))[ids[j]] <= (m + |ids| - 1) / |ids|
  {
    TurnsCount(ids, start, m, j);
    if start + m <= UINT32_COUNT {
      BalancedWithoutWrap(start, m, |ids|);
    } else {
      DividesPlain(start, m, |ids|);
      PlainBalanced(start, m, |ids|);
    }
  }

  lemma WrapAgain(counter: nat, n: nat)
    requires n > 0
    ensures Index(counter % UINT32_COUNT, n) == Index(counter, n)
    ensures (counter % UINT32_COUNT + 1) % UINT32_COUNT == (counter + 1) % UINT32_COUNT
  {
  }

  class ServiceHealth {
    var health: Health

    ghost predicate Valid()
      reads this
    {
      InRange(health)
    }

    constructor (valid: set<nat>)
      ensures Valid() && health == Health(valid, map[])
    {
      health := Health(valid, map[]);
    }

    method UpdateServiceHealth(id: nat, timeout: bool)
      requires Valid()
      modifies this
      ensures Valid() && health == Marked(old(health), id, timeout)
    {
      var marks := health.marks;
      if id !in marks {
        marks := marks[id := MAX_SERVICE_HEALTH];
      }
      var mark := marks[id];
      if timeout {
        mark := if mark >= TIMEOUT_HEALTH then mark - TIMEOUT_HEALTH else 0;
      } else {
        mark := if mark + SUCCESS_HEALTH <= MAX_SERVICE_HEALTH then mark + SUCCESS_HEALTH else MAX_SERVICE_HEALTH;
      }
      health := health.(marks := marks[id := mark]);
      assert health.marks == Marked(old(health), id, timeout).marks;
    }
  }
}
