/**
 The SLA figures of app/metrics.py. Times are whole microseconds of UTC. `clean` is `strip` followed by
 `casefold`, and `tieUp(k)` says whether `round` goes up from half way between `k` and `k + 1` tenths.
 */
module SlaMetrics {
  import opened Basics

  const RESOLVED := "resolved"
  const MINUTE := 60 * 1_000_000
  const DUE_WINDOW := 30 * MINUTE
  const SLA_WINDOW := 7 * 24 * 60 * MINUTE

  datatype Ticket = Ticket(status: Option<string>, due: Option<int>, resolvedAt: Option<int>)

  /** `compliance` is in tenths of a percent. */
  datatype Metrics = Metrics(
    open: nat,
    dueSoon: nat,
    compliance: Option<int>,
    resolved: nat,
    measured: nat,
    generatedAt: int)

  // ---------------------------------------------------------------- what is counted

  predicate IsResolved(clean: string -> string, t: Ticket) {
    clean(if t.status.Some? then t.status.value else "") == RESOLVED
  }

  predicate IsDueSoon(clean: string -> string, now: int, t: Ticket) {
    !IsResolved(clean, t) && t.due.Some? && now <= t.due.value <= now + DUE_WINDOW
  }

  predicate IsRecent(clean: string -> string, now: int, t: Ticket) {
    IsResolved(clean, t) && t.resolvedAt.Some? && now - SLA_WINDOW <= t.resolvedAt.value <= now
  }

  predicate IsMet(clean: string -> string, now: int, t: Ticket) {
    IsRecent(clean, now, t) && t.due.Some? && t.resolvedAt.value <= t.due.value
  }

  function Open(clean: string -> string): Ticket -> bool {
    t => !IsResolved(clean, t)
  }

  function DueSoon(clean: string -> string, now: int): Ticket -> bool {
    t => IsDueSoon(clean, now, t)
  }

  function Resolved(clean: string -> string, now: int): Ticket -> bool {
    t => IsRecent(clean, now, t)
  }

  function Measured(clean: string -> string, now: int): Ticket -> bool {
    t => IsRecent(clean, now, t) && t.due.Some?
  }

  function Met(clean: string -> string, now: int): Ticket -> bool {
    t => IsMet(clean, now, t)
  }

  // ---------------------------------------------------------------- the percentage

  /** 1000 * met / measured, rounded to a whole number of tenths. */
  function Tenths(met: nat, measured: nat, tieUp: int -> bool): int
    requires measured > 0
  {
    var floor, rest := 1000 * met / measured, 1000 * met % measured;
    if 2 * rest > measured || (2 * rest == measured && tieUp(floor)) then floor + 1 else floor
  }

  function Compliance(met: nat, measured: nat, tieUp: int -> bool): Option<int> {
    if measured == 0 then None else Some(Tenths(met, measured, tieUp))
  }

  lemma Euclid(a: nat, b: nat)
    requires b > 0
    ensures a == (a / b) * b + a % b && 0 <= a % b < b
  {}

  lemma ProductOrder(a: int, b: int, n: nat)
    requires n > 0
    ensures a <= b ==> a * n <= b * n
    ensures a < b ==> a * n + n <= b * n
  {
    if a < b {
      assert b * n == (a + 1) * n + (b - a - 1) * n;
      assert (b - a - 1) * n >= 0;
    }
  }

  /** The rounded figure reaches `k` tenths exactly when the true one is no more than half a tenth less. */
  lemma TenthsReach(met: nat, measured: nat, tieUp: int -> bool, k: int)
    requires measured > 0
    ensures Tenths(met, measured, tieUp) >= k <==>
              2000 * met > (2 * k - 1) * measured || (tieUp(k - 1) && 2000 * met == (2 * k - 1) * measured)
  {
    var f, r := 1000 * met / measured, 1000 * met % measured;
    Euclid(1000 * met, measured);
    assert (2 * k - 1) * measured == 2 * (k * measured) - measured;
    ProductOrder(f, k, measured);
    ProductOrder(k, f, measured);
    ProductOrder(f + 1, k, measured);
    assert (f + 1) * measured == f * measured + measured;
  }

  /** The percentage is within 0.05 of the exact ratio, between 0 and 100. */
  lemma ComplianceIsNear(met: nat, measured: nat, tieUp: int -> bool)
    requires met <= measured
    ensures Compliance(met, measured, tieUp).None? <==> measured == 0
    ensures measured > 0 ==>
              var c := Compliance(met, measured, tieUp).value;
              && 0 <= c <= 1000
              && 0 - measured <= 2 * (c * measured - 1000 * met) <= measured
  {
    if measured > 0 {
      var c := Tenths(met, measured, tieUp);
      TenthsReach(met, measured, tieUp, c);
      TenthsReach(met, measured, tieUp, c + 1);
      TenthsReach(met, measured, tieUp, 0);
      TenthsReach(met, measured, tieUp, 1001);
      assert (2 * c - 1) * measured == 2 * (c * measured) - measured;
      assert (2 * (c + 1) - 1) * measured == 2 * (c * measured) + measured;
    }
  }

  /** It reads 100.0 exactly when fewer than one in 2000 measured tickets was late, and 0.0 exactly when
      fewer than one in 2000 was in time; ties at one in 2000 go where `round` takes them. */
  lemma ReadsFullExactly(met: nat, measured: nat, tieUp: int -> bool)
    requires met <= measured && measured > 0
    ensures Compliance(met, measured, tieUp) == Some(1000) <==>
              2000 * (measured - met) < measured || (tieUp(999) && 2000 * (measured - met) == measured)
    ensures Compliance(met, measured, tieUp) == Some(0) <==>
              2000 * met < measured || (!tieUp(0) && 2000 * met == measured)
  {
    ComplianceIsNear(met, measured, tieUp);
    TenthsReach(met, measured, tieUp, 1000);
    TenthsReach(met, measured, tieUp, 1);
  }

  /** So below 2000 measured tickets the two ends mean all and none, and above they need not. */
  lemma EndsMeanAllAndNone(met: nat, measured: nat, tieUp: int -> bool)
    requires met <= measured && measured > 0
    ensures measured < 2000 ==> (Compliance(met, measured, tieUp) == Some(1000) <==> met == measured)
    ensures measured < 2000 ==> (Compliance(met, measured, tieUp) == Some(0) <==> met == 0)
    ensures measured > 2000 ==> Compliance(measured - 1, measured, tieUp) == Some(1000)
    ensures measured > 2000 ==> Compliance(1, measured, tieUp) == Some(0)
  {
    ReadsFullExactly(met, measured, tieUp);
    ReadsFullExactly(measured - 1, measured, tieUp);
    ReadsFullExactly(1, measured, tieUp);
  }

  // ---------------------------------------------------------------- the loop

  /** The figures, counted one by one over the whole list. */
  function Summary(clean: string -> string, tickets: seq<Ticket>, now: int, tieUp: int -> bool): Metrics {
    var measured := Count(Measured(clean, now), tickets);
    Metrics(
      Count(Open(clean), tickets),
      Count(DueSoon(clean, now), tickets),
      Compliance(Count(Met(clean, now), tickets), measured, tieUp),
      Count(Resolved(clean, now), tickets),
      measured,
      now)
  }

  // ---------------------------------------------------------------- the definitions, in the queue's terms

  /** The Status column, without blanks and case, says Resolved. */
  ghost predicate Closed(clean: string -> string, t: Ticket) {
    match t.status
    case Some(s) => clean(s) == "resolved"
    case None => clean("") == "resolved"
  }

  /** Not resolved, and due within the next 30 minutes. */
  ghost predicate FallsDue(clean: string -> string, now: int, t: Ticket) {
    !Closed(clean, t) && exists d :: t.due == Some(d) && now <= d <= now + 1_800_000_000
  }

  /** Resolved within the last seven days. */
  ghost predicate ClosedLately(clean: string -> string, now: int, t: Ticket) {
    Closed(clean, t) && exists r :: t.resolvedAt == Some(r) && now - 604_800_000_000 <= r <= now
  }

  /** It has a due date, and was resolved no later. */
  ghost predicate InTime(t: Ticket) {
    exists d, r :: t.due == Some(d) && t.resolvedAt == Some(r) && r <= d
  }

  /** `c` tenths are the percentage of `met` in `measured` to the nearest tenth, and a tie is broken as
      `round` breaks it; there is no percentage of nothing. */
  ghost predicate Nearest(c: Option<int>, met: nat, measured: nat, tieUp: int -> bool) {
    && (c.None? <==> measured == 0)
    && (c.Some? ==>
          && 0 - measured <= 2 * (c.value * measured - 1000 * met) <= measured
          && (2 * (c.value * measured - 1000 * met) == measured ==> tieUp(c.value - 1))
          && (2 * (c.value * measured - 1000 * met) == 0 - measured ==> !tieUp(c.value)))
  }

  lemma SameJudgements(clean: string -> string, now: int, t: Ticket)
    ensures (Open(clean))(t) <==> !Closed(clean, t)
    ensures (DueSoon(clean, now))(t) <==> FallsDue(clean, now, t)
    ensures (Resolved(clean, now))(t) <==> ClosedLately(clean, now, t)
    ensures (Measured(clean, now))(t) <==> ClosedLately(clean, now, t) && t.due.Some?
    ensures (Met(clean, now))(t) <==> ClosedLately(clean, now, t) && InTime(t)
  {}

  lemma SamePlaces(p: Ticket -> bool, q: Ticket -> bool, tickets: seq<Ticket>)
    requires forall t :: p(t) <==> q(t)
    ensures Count(p, tickets) == |Places(q, tickets)|
  {
    CountPlaces(p, tickets);
    assert Places(p, tickets) == Places(q, tickets);
  }

  /** On a tie the rounded figure is the one `round` goes to. */
  lemma TenthsTie(met: nat, measured: nat, tieUp: int -> bool)
    requires measured > 0
    ensures
      var c := Tenths(met, measured, tieUp);
      && (2 * (c * measured - 1000 * met) == measured ==> tieUp(c - 1))
      && (2 * (c * measured - 1000 * met) == 0 - measured ==> !tieUp(c))
  {
    var c := Tenths(met, measured, tieUp);
    TenthsReach(met, measured, tieUp, c);
    TenthsReach(met, measured, tieUp, c + 1);
    TwoTimes(c, measured);
    TwoTimes(c + 1, measured);
    assert (c + 1) * measured == c * measured + measured;
  }

  lemma TwoTimes(k: int, n: nat)
    ensures (2 * k - 1) * n == 2 * (k * n) - n
  {}

  lemma ComplianceIsNearest(met: nat, measured: nat, tieUp: int -> bool)
    requires met <= measured
    ensures Nearest(Compliance(met, measured, tieUp), met, measured, tieUp)
  {
    ComplianceIsNear(met, measured, tieUp);
    if measured > 0 {
      TenthsTie(met, measured, tieUp);
    }
  }

  /** What the response promises, ticket by ticket. */
  ghost predicate Reports(clean: string -> string, tickets: seq<Ticket>, now: int, tieUp: int -> bool, m: Metrics) {
    && m.open == |Places(t => !Closed(clean, t), tickets)|
    && m.dueSoon == |Places(t => FallsDue(clean, now, t), tickets)|
    && m.resolved == |Places(t => ClosedLately(clean, now, t), tickets)|
    && m.measured == |Places(t => ClosedLately(clean, now, t) && t.due.Some?, tickets)|
    && Nearest(m.compliance, |Places(t => ClosedLately(clean, now, t) && InTime(t), tickets)|, m.measured, tieUp)
    && m.generatedAt == now
  }

  lemma SummaryReports(clean: string -> string, tickets: seq<Ticket>, now: int, tieUp: int -> bool)
    ensures Reports(clean, tickets, now, tieUp, Summary(clean, tickets, now, tieUp))
  {
    forall t ensures (Open(clean))(t) <==> !Closed(clean, t) {
      SameJudgements(clean, now, t);
    }
    forall t ensures (DueSoon(clean, now))(t) <==> FallsDue(clean, now, t) {
      SameJudgements(clean, now, t);
    }
    forall t ensures (Resolved(clean, now))(t) <==> ClosedLately(clean, now, t) {
      SameJudgements(clean, now, t);
    }
    forall t ensures (Measured(clean, now))(t) <==> ClosedLately(clean, now, t) && t.due.Some? {
      SameJudgements(clean, now, t);
    }
    forall t ensures (Met(clean, now))(t) <==> ClosedLately(clean, now, t) && InTime(t) {
      SameJudgements(clean, now, t);
    }
    SamePlaces(Open(clean), t => !Closed(clean, t), tickets);
    SamePlaces(DueSoon(clean, now), t => FallsDue(clean, now, t), tickets);
    SamePlaces(Resolved(clean, now), t => ClosedLately(clean, now, t), tickets);
    SamePlaces(Measured(clean, now), t => ClosedLately(clean, now, t) && t.due.Some?, tickets);
    SamePlaces(Met(clean, now), t => ClosedLately(clean, now, t) && InTime(t), tickets);
    CountImplies(Met(clean, now), Measured(clean, now), tickets);
    ComplianceIsNearest(Count(Met(clean, now), tickets), Count(Measured(clean, now), tickets), tieUp);
  }

  /** `compute_metrics`. */
  method ComputeMetrics(clean: string -> string, tickets: seq<Ticket>, now: int, tieUp: int -> bool)
    returns (m: Metrics)
    ensures Reports(clean, tickets, now, tieUp, m)
    ensures m == Summary(clean, tickets, now, tieUp)
  {
    var dueCutoff, slaCutoff := now + DUE_WINDOW, now - SLA_WINDOW;
    var open, dueSoon, resolved, measured, met := 0, 0, 0, 0, 0;
    var i := 0;
    while i < |tickets|
      invariant 0 <= i <= |tickets|
      invariant open == Count(Open(clean), tickets[..i])
      invariant dueSoon == Count(DueSoon(clean, now), tickets[..i])
      invariant resolved == Count(Resolved(clean, now), tickets[..i])
      invariant measured == Count(Measured(clean, now), tickets[..i])
      invariant met == Count(Met(clean, now), tickets[..i])
    {
      var t := tickets[i];
      CountsSnoc(clean, tickets, now, i);
      i := i + 1;
      if !IsResolved(clean, t) {
        open := open + 1;
        if t.due.Some? && now <= t.due.value <= dueCutoff {
          dueSoon := dueSoon + 1;
        }
        continue;
      }
      if t.resolvedAt.None? || !(slaCutoff <= t.resolvedAt.value <= now) {
        continue;
      }
      resolved := resolved + 1;
      if t.due.None? {
        continue;
      }
      measured := measured + 1;
      if t.resolvedAt.value <= t.due.value {
        met := met + 1;
      }
    }
    assert tickets[..i] == tickets;
    m := Metrics(open, dueSoon, Compliance(met, measured, tieUp), resolved, measured, now);
    SummaryReports(clean, tickets, now, tieUp);
  }

  lemma CountsSnoc(clean: string -> string, tickets: seq<Ticket>, now: int, i: nat)
    requires i < |tickets|
    ensures forall p :: p in [Open(clean), DueSoon(clean, now), Resolved(clean, now),
                              Measured(clean, now), Met(clean, now)] ==>
              Count(p, tickets[..i + 1]) == Count(p, tickets[..i]) + if p(tickets[i]) then 1 else 0
  {
    assert tickets[..i + 1] == tickets[..i] + [tickets[i]];
    forall p: Ticket -> bool
      ensures Count(p, tickets[..i + 1]) == Count(p, tickets[..i]) + if p(tickets[i]) then 1 else 0
    {
      CountSnoc(p, tickets[..i], tickets[i]);
    }
  }

  // ---------------------------------------------------------------- what the figures mean

  /** The order in which SharePoint lists the tickets does not matter. */
  lemma PermutationFree(clean: string -> string, a: seq<Ticket>, b: seq<Ticket>, now: int, tieUp: int -> bool)
    requires multiset(a) == multiset(b)
    ensures Summary(clean, a, now, tieUp) == Summary(clean, b, now, tieUp)
  {
    CountPermutation(Open(clean), a, b);
    CountPermutation(DueSoon(clean, now), a, b);
    CountPermutation(Resolved(clean, now), a, b);
    CountPermutation(Measured(clean, now), a, b);
    CountPermutation(Met(clean, now), a, b);
  }

  /** No ticket is counted as both open and resolved, the due ones are among the open, the measured among
      the resolved; and the percentage is null exactly when nothing could be measured. */
  lemma Nested(clean: string -> string, tickets: seq<Ticket>, now: int, tieUp: int -> bool)
    ensures
      var m := Summary(clean, tickets, now, tieUp);
      && m.dueSoon <= m.open
      && Count(Met(clean, now), tickets) <= m.measured <= m.resolved
      && m.open + m.resolved <= |tickets|
      && (m.compliance.None? <==> m.measured == 0)
      && (m.compliance.Some? ==> 0 <= m.compliance.value <= 1000)
  {
    CountImplies(DueSoon(clean, now), Open(clean), tickets);
    CountImplies(Met(clean, now), Measured(clean, now), tickets);
    CountImplies(Measured(clean, now), Resolved(clean, now), tickets);
    CountDisjoint(Open(clean), Resolved(clean, now), tickets);
    ComplianceIsNear(Count(Met(clean, now), tickets), Count(Measured(clean, now), tickets), tieUp);
  }

  lemma {:induction false} CountDisjoint<T(!new)>(p: T -> bool, q: T -> bool, s: seq<T>)
    requires forall x :: p(x) ==> !q(x)
    ensures Count(p, s) + Count(q, s) <= |s|
  {
    if s != [] {
      CountDisjoint(p, q, s[1..]);
    }
  }

  lemma CountsAdd(clean: string -> string, a: seq<Ticket>, b: seq<Ticket>, now: int)
    ensures Count(Open(clean), a + b) == Count(Open(clean), a) + Count(Open(clean), b)
    ensures Count(DueSoon(clean, now), a + b) == Count(DueSoon(clean, now), a) + Count(DueSoon(clean, now), b)
    ensures Count(Resolved(clean, now), a + b) == Count(Resolved(clean, now), a) + Count(Resolved(clean, now), b)
    ensures Count(Measured(clean, now), a + b) == Count(Measured(clean, now), a) + Count(Measured(clean, now), b)
    ensures Count(Met(clean, now), a + b) == Count(Met(clean, now), a) + Count(Met(clean, now), b)
  {
    CountConcat(Open(clean), a, b);
    CountConcat(DueSoon(clean, now), a, b);
    CountConcat(Resolved(clean, now), a, b);
    CountConcat(Measured(clean, now), a, b);
    CountConcat(Met(clean, now), a, b);
  }

  /** What the joint percentage of two lists is, given those of each. */
  ghost predicate Joint(x: Option<int>, y: Option<int>, z: Option<int>) {
    && (x.None? ==> z == y)
    && (y.None? ==> z == x)
    && (x.Some? && y.Some? ==> Between(x.value, z, y.value))
  }

  lemma JointCompliance(m1: nat, n1: nat, m2: nat, n2: nat, tieUp: int -> bool)
    requires m1 <= n1 && m2 <= n2
    ensures Joint(Compliance(m1, n1, tieUp), Compliance(m2, n2, tieUp), Compliance(m1 + m2, n1 + n2, tieUp))
  {
    if n1 > 0 && n2 > 0 {
      Mediant(m1, n1, m2, n2, tieUp);
    }
  }

  /** The counters add over two lists, and the joint percentage lies between the two. */
  lemma Additive(clean: string -> string, a: seq<Ticket>, b: seq<Ticket>, now: int, tieUp: int -> bool)
    ensures
      var x, y, z := Summary(clean, a, now, tieUp), Summary(clean, b, now, tieUp), Summary(clean, a + b, now, tieUp);
      && z.open == x.open + y.open
      && z.dueSoon == x.dueSoon + y.dueSoon
      && z.resolved == x.resolved + y.resolved
      && z.measured == x.measured + y.measured
      && Joint(x.compliance, y.compliance, z.compliance)
  {
    CountsAdd(clean, a, b, now);
    CountImplies(Met(clean, now), Measured(clean, now), a);
    CountImplies(Met(clean, now), Measured(clean, now), b);
    JointCompliance(Count(Met(clean, now), a), Count(Measured(clean, now), a),
                    Count(Met(clean, now), b), Count(Measured(clean, now), b), tieUp);
  }

  predicate Between(x: int, z: Option<int>, y: int) {
    z.Some? && if x <= y then x <= z.value <= y else y <= z.value <= x
  }

  lemma Mediant(m1: nat, n1: nat, m2: nat, n2: nat, tieUp: int -> bool)
    requires n1 > 0 && n2 > 0
    ensures Between(Tenths(m1, n1, tieUp), Some(Tenths(m1 + m2, n1 + n2, tieUp)), Tenths(m2, n2, tieUp))
  {
    var x, y := Tenths(m1, n1, tieUp), Tenths(m2, n2, tieUp);
    var low, high := if x <= y then x else y, if x <= y then y else x;
    MediantReach(m1, n1, m2, n2, tieUp, low);
    MediantReach(m1, n1, m2, n2, tieUp, high + 1);
  }

  lemma MediantReach(m1: nat, n1: nat, m2: nat, n2: nat, tieUp: int -> bool, k: int)
    requires n1 > 0 && n2 > 0
    ensures Tenths(m1, n1, tieUp) >= k && Tenths(m2, n2, tieUp) >= k ==> Tenths(m1 + m2, n1 + n2, tieUp) >= k
    ensures Tenths(m1, n1, tieUp) < k && Tenths(m2, n2, tieUp) < k ==> Tenths(m1 + m2, n1 + n2, tieUp) < k
  {
    TenthsReach(m1, n1, tieUp, k);
    TenthsReach(m2, n2, tieUp, k);
    TenthsReach(m1 + m2, n1 + n2, tieUp, k);
    assert (2 * k - 1) * (n1 + n2) == (2 * k - 1) * n1 + (2 * k - 1) * n2;
  }

  function ShiftTime(t: Option<int>, d: int): Option<int> {
    if t.None? then None else Some(t.value + d)
  }

  function Shift(t: Ticket, d: int): Ticket {
    t.(due := ShiftTime(t.due, d), resolvedAt := ShiftTime(t.resolvedAt, d))
  }

  function ShiftAll(tickets: seq<Ticket>, d: int): seq<Ticket> {
    if tickets == [] then [] else [Shift(tickets[0], d)] + ShiftAll(tickets[1..], d)
  }

  lemma {:induction false} CountShift(p: Ticket -> bool, q: Ticket -> bool, tickets: seq<Ticket>, d: int)
    requires forall t :: q(Shift(t, d)) == p(t)
    ensures Count(q, ShiftAll(tickets, d)) == Count(p, tickets)
  {
    if tickets != [] {
      CountShift(p, q, tickets[1..], d);
      assert ShiftAll(tickets, d)[1..] == ShiftAll(tickets[1..], d);
    }
  }

  lemma ShiftTicket(clean: string -> string, t: Ticket, now: int, d: int)
    ensures IsResolved(clean, Shift(t, d)) == IsResolved(clean, t)
    ensures IsDueSoon(clean, now + d, Shift(t, d)) == IsDueSoon(clean, now, t)
    ensures IsRecent(clean, now + d, Shift(t, d)) == IsRecent(clean, now, t)
    ensures IsMet(clean, now + d, Shift(t, d)) == IsMet(clean, now, t)
  {}

  lemma ShiftCounts(clean: string -> string, tickets: seq<Ticket>, now: int, d: int)
    ensures Count(Open(clean), ShiftAll(tickets, d)) == Count(Open(clean), tickets)
    ensures Count(DueSoon(clean, now + d), ShiftAll(tickets, d)) == Count(DueSoon(clean, now), tickets)
    ensures Count(Resolved(clean, now + d), ShiftAll(tickets, d)) == Count(Resolved(clean, now), tickets)
    ensures Count(Measured(clean, now + d), ShiftAll(tickets, d)) == Count(Measured(clean, now), tickets)
    ensures Count(Met(clean, now + d), ShiftAll(tickets, d)) == Count(Met(clean, now), tickets)
  {
    assert Count(Open(clean), ShiftAll(tickets, d)) == Count(Open(clean), tickets) by {
      forall t ensures (Open(clean))(Shift(t, d)) == (Open(clean))(t) {
        ShiftTicket(clean, t, now, d);
      }
      CountShift(Open(clean), Open(clean), tickets, d);
    }
    assert Count(DueSoon(clean, now + d), ShiftAll(tickets, d)) == Count(DueSoon(clean, now), tickets) by {
      forall t ensures (DueSoon(clean, now + d))(Shift(t, d)) == (DueSoon(clean, now))(t) {
        ShiftTicket(clean, t, now, d);
      }
      CountShift(DueSoon(clean, now), DueSoon(clean, now + d), tickets, d);
    }
    assert Count(Resolved(clean, now + d), ShiftAll(tickets, d)) == Count(Resolved(clean, now), tickets) by {
      forall t ensures (Resolved(clean, now + d))(Shift(t, d)) == (Resolved(clean, now))(t) {
        ShiftTicket(clean, t, now, d);
      }
      CountShift(Resolved(clean, now), Resolved(clean, now + d), tickets, d);
    }
    assert Count(Measured(clean, now + d), ShiftAll(tickets, d)) == Count(Measured(clean, now), tickets) by {
      forall t ensures (Measured(clean, now + d))(Shift(t, d)) == (Measured(clean, now))(t) {
        ShiftTicket(clean, t, now, d);
      }
      CountShift(Measured(clean, now), Measured(clean, now + d), tickets, d);
    }
    assert Count(Met(clean, now + d), ShiftAll(tickets, d)) == Count(Met(clean, now), tickets) by {
      forall t ensures (Met(clean, now + d))(Shift(t, d)) == (Met(clean, now))(t) {
        ShiftTicket(clean, t, now, d);
      }
      CountShift(Met(clean, now), Met(clean, now + d), tickets, d);
    }
  }

  /** Only how long ago or how far ahead things are matters, not when. */
  lemma ShiftFree(clean: string -> string, tickets: seq<Ticket>, now: int, d: int, tieUp: int -> bool)
    ensures Summary(clean, ShiftAll(tickets, d), now + d, tieUp)
              == Summary(clean, tickets, now, tieUp).(generatedAt := now + d)
  {
    ShiftCounts(clean, tickets, now, d);
  }
}
