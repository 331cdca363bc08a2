/** A stage twin's accelerated schedule (scripts/twin-accelerate.ts): evenly spread closes, the grid they
    start, and the re-time of the open windows. */
module TwinSchedule {
  import opened Wrappers

  // ── The plan ──────────────────────────────────────────────────────────────────────────────

  /** An epoch in milliseconds. */
  function Epoch(seconds: nat): nat { seconds * 1000 }

  /** Half a unit rounds up, towards positive infinity. */
  function Round(a: int, b: int): int
    requires b > 0
  {
    (2 * a + b) / (2 * b)
  }

  datatype Close = Close(subject: string, at: int)

  /** Subject i of n closes at now + (i + 1) epochs / n. */
  function PlanCloses(now: int, seconds: nat, subjects: seq<string>): (r: seq<Close>)
    ensures |r| == |subjects|
    ensures forall i :: 0 <= i < |r| ==> r[i].subject == subjects[i]
  {
    seq(|subjects|, i requires 0 <= i < |subjects| => Close(subjects[i], now + Round((i + 1) * Epoch(seconds), |subjects|)))
  }

  /** Every later close of subject i is k epochs after its first. */
  function CloseOf(now: int, seconds: nat, subjects: seq<string>, i: nat, k: int): int
    requires i < |subjects|
  {
    PlanCloses(now, seconds, subjects)[i].at + k * Epoch(seconds)
  }

  /** The m-th close of all subjects together, over every integer m: subject (m - 1) mod n's. */
  function GridAt(now: int, seconds: nat, n: nat, m: int): int
    requires n > 0
  {
    now + Round(m * Epoch(seconds), n)
  }

  // ── Rounding ──────────────────────────────────────────────────────────────────────────────

  lemma QuotientIs(a: int, b: int, q: int)
    requires b > 0 && q * b <= a < (q + 1) * b
    ensures a / b == q
  {
    var r := a / b;
    assert r * b <= a < (r + 1) * b;
    if r < q { Scaled(r + 1, q, b); }
    if q < r { Scaled(q + 1, r, b); }
  }

  lemma Scaled(x: int, y: int, b: int)
    requires b > 0 && x <= y
    ensures x * b <= y * b
  {
  }

  lemma Between(a: int, b: int)
    requires b > 0
    ensures (a / b) * b <= a < (a / b + 1) * b
  {
  }

  /** Adding whole units rounds to so many more. */
  lemma RoundShifts(a: int, b: int, k: int)
    requires b > 0
    ensures Round(a + k * b, b) == Round(a, b) + k
  {
    var q := Round(a, b);
    Between(2 * a + b, 2 * b);
    assert 2 * (a + k * b) + b == 2 * a + b + k * (2 * b);
    assert (q + k) * (2 * b) == q * (2 * b) + k * (2 * b);
    assert (q + k + 1) * (2 * b) == (q + 1) * (2 * b) + k * (2 * b);
    QuotientIs(2 * (a + k * b) + b, 2 * b, q + k);
  }

  /** Rounded steps differ from the exact step by less than one: each is its floor or its ceiling. */
  lemma RoundSteps(a: int, d: nat, b: int)
    requires b > 0
    ensures var gap := Round(a + d, b) - Round(a, b);
            d / b <= gap && (gap == d / b || (gap == d / b + 1 && d % b != 0))
  {
    var x, y := Round(a, b), Round(a + d, b);
    var f := d / b;
    Between(2 * a + b, 2 * b);
    Between(2 * (a + d) + b, 2 * b);
    assert d == f * b + d % b;
    assert (x + f) * (2 * b) == x * (2 * b) + 2 * (f * b);
    assert (x + f + 1) * (2 * b) == (x + 1) * (2 * b) + 2 * (f * b);
    assert (x + f + 2) * (2 * b) == (x + 2) * (2 * b) + 2 * (f * b) && (x + 2) * (2 * b) == (x + 1) * (2 * b) + 2 * b;
    if 2 * (a + d) + b < (x + f + 1) * (2 * b) {
      QuotientIs(2 * (a + d) + b, 2 * b, x + f);
    } else {
      QuotientIs(2 * (a + d) + b, 2 * b, x + f + 1);
    }
  }

  /** A close is the whole millisecond nearest its exact place, a half going up. */
  lemma RoundIsNearest(a: int, b: int)
    requires b > 0
    ensures -b < 2 * (b * Round(a, b) - a) <= b
  {
    var q := Round(a, b);
    Between(2 * a + b, 2 * b);
    assert q * (2 * b) == 2 * (b * q) && (q + 1) * (2 * b) == 2 * (b * q) + 2 * b;
  }

  /** The i-th of n subjects first closes (i + 1) epochs / n from now, to the nearest millisecond. */
  lemma ClosesAreNearest(now: int, seconds: nat, subjects: seq<string>, i: nat)
    requires i < |subjects|
    ensures var n, close := |subjects|, PlanCloses(now, seconds, subjects)[i];
            close.subject == subjects[i] && -n < 2 * (n * (close.at - now) - (i + 1) * 1000 * seconds) <= n
  {
    RoundIsNearest((i + 1) * Epoch(seconds), |subjects|);
    assert (i + 1) * Epoch(seconds) == (i + 1) * 1000 * seconds;
  }

  // ── The grid ──────────────────────────────────────────────────────────────────────────────

  /** The subjects' closes, each repeated every epoch, are the grid's: subject i's k-th is the (i + 1 + k n)-th. */
  lemma ClosesAreTheGrid(now: int, seconds: nat, subjects: seq<string>, i: nat, k: int)
    requires i < |subjects|
    ensures CloseOf(now, seconds, subjects, i, k) == GridAt(now, seconds, |subjects|, i + 1 + k * |subjects|)
  {
    var n, e := |subjects|, Epoch(seconds);
    assert (i + 1 + k * n) * e == (i + 1) * e + (k * e) * n by { Regroup(i + 1, k, n, e); }
    RoundShifts((i + 1) * e, n, k * e);
  }

  lemma Regroup(x: int, k: int, n: int, e: int)
    ensures (x + k * n) * e == x * e + (k * e) * n
  {
  }

  /** And every point of the grid is one subject's close, in one epoch. */
  lemma GridIsTheCloses(now: int, seconds: nat, subjects: seq<string>, m: int)
    requires subjects != []
    ensures var n := |subjects|;
            0 <= (m - 1) % n < n && GridAt(now, seconds, n, m) == CloseOf(now, seconds, subjects, (m - 1) % n, (m - 1) / n)
  {
    var n := |subjects|;
    assert m == (m - 1) % n + 1 + ((m - 1) / n) * n;
    ClosesAreTheGrid(now, seconds, subjects, (m - 1) % n, (m - 1) / n);
  }

  /** Neighbouring closes are exactly the floor or the ceiling of an epoch / n apart, the wrap from one epoch
      to the next included. */
  lemma GridSpacing(now: int, seconds: nat, n: nat, m: int)
    requires n > 0
    ensures var gap := GridAt(now, seconds, n, m + 1) - GridAt(now, seconds, n, m);
            gap == Epoch(seconds) / n || (gap == Epoch(seconds) / n + 1 && Epoch(seconds) % n != 0)
  {
    assert (m + 1) * Epoch(seconds) == m * Epoch(seconds) + Epoch(seconds);
    RoundSteps(m * Epoch(seconds), Epoch(seconds), n);
  }

  /** How many of the next `count` gaps from the m-th close are the longer one. */
  function LongGaps(now: int, seconds: nat, n: nat, m: int, count: nat): nat
    requires n > 0
  {
    if count == 0 then 0
    else
      LongGaps(now, seconds, n, m, count - 1)
      + if GridAt(now, seconds, n, m + count) - GridAt(now, seconds, n, m + count - 1) == Epoch(seconds) / n then 0 else 1
  }

  lemma {:induction false} GapsAddUp(now: int, seconds: nat, n: nat, m: int, count: nat)
    requires n > 0
    ensures GridAt(now, seconds, n, m + count) - GridAt(now, seconds, n, m) ==
            count * (Epoch(seconds) / n) + LongGaps(now, seconds, n, m, count)
    decreases count
  {
    if count > 0 {
      GapsAddUp(now, seconds, n, m, count - 1);
      GridSpacing(now, seconds, n, m + count - 1);
      assert m + (count - 1) == m + count - 1 && m + count - 1 + 1 == m + count;
      OneMore(count, Epoch(seconds) / n);
    }
  }

  lemma OneMore(count: nat, f: int)
    requires count > 0
    ensures count * f == (count - 1) * f + f
  {
  }

  /** Over any n gaps in a row the grid moves on by one epoch, so exactly epoch mod n of them are the longer. */
  lemma EveryRoundIsAnEpoch(now: int, seconds: nat, n: nat, m: int)
    requires n > 0
    ensures GridAt(now, seconds, n, m + n) == GridAt(now, seconds, n, m) + Epoch(seconds)
    ensures LongGaps(now, seconds, n, m, n) == Epoch(seconds) % n
  {
    var e := Epoch(seconds);
    assert (m + n) * e == m * e + e * n;
    RoundShifts(m * e, n, e);
    GapsAddUp(now, seconds, n, m, n);
    DivMod(e, n);
  }

  lemma DivMod(a: nat, b: nat)
    requires b > 0
    ensures a == b * (a / b) + a % b
  {
  }

  predicate InEpochFrom(from: int, seconds: nat, at: int) {
    from <= at < from + Epoch(seconds)
  }

  /** Every half-open interval of one epoch holds exactly one close of each subject. */
  lemma OneCloseEach(now: int, seconds: nat, subjects: seq<string>, i: nat, from: int) returns (k: int)
    requires i < |subjects| && seconds > 0
    ensures InEpochFrom(from, seconds, CloseOf(now, seconds, subjects, i, k))
    ensures forall j :: InEpochFrom(from, seconds, CloseOf(now, seconds, subjects, i, j)) ==> j == k
  {
    var e, first := Epoch(seconds), CloseOf(now, seconds, subjects, i, 0);
    k := -((first - from) / e);
    Between(first - from, e);
    assert k * e == -(((first - from) / e) * e) by { Negated((first - from) / e, e); }
    assert ((first - from) / e + 1) * e == ((first - from) / e) * e + e;
    assert CloseOf(now, seconds, subjects, i, k) == first + k * e;
    forall j | InEpochFrom(from, seconds, CloseOf(now, seconds, subjects, i, j)) ensures j == k {
      OnlyOneClose(now, seconds, subjects, i, from, j, k);
    }
  }

  /** Two closes of one subject in such an interval are the same one. */
  lemma OnlyOneClose(now: int, seconds: nat, subjects: seq<string>, i: nat, from: int, j: int, k: int)
    requires i < |subjects| && seconds > 0
    requires InEpochFrom(from, seconds, CloseOf(now, seconds, subjects, i, j))
    requires InEpochFrom(from, seconds, CloseOf(now, seconds, subjects, i, k))
    ensures j == k
  {
    var e := Epoch(seconds);
    if j < k { Apart(j, k, e); }
    if k < j { Apart(k, j, e); }
  }

  lemma Negated(a: int, b: int)
    ensures (-a) * b == -(a * b)
  {
  }

  lemma Apart(j: int, k: int, e: nat)
    requires j < k
    ensures k * e >= j * e + e
  {
    assert k * e == j * e + (k - j) * e;
    assert (k - j) * e == (k - j - 1) * e + e;
    assert (k - j - 1) * e >= 0;
  }

  // ── The re-time ───────────────────────────────────────────────────────────────────────────

  datatype Session = Session(id: string, subject: string, collecting: bool, closesAt: int)
  datatype Schedule = Schedule(epochSeconds: nat, anchor: int)

  /** One row of the update: a collecting window of this subject that closes later. */
  function Retimed(s: Session, close: Close): Session {
    if s.collecting && s.subject == close.subject && s.closesAt > close.at then s.(closesAt := close.at) else s
  }

  function RetimedAll(sessions: seq<Session>, close: Close): (r: seq<Session>)
    ensures |r| == |sessions| && forall i :: 0 <= i < |r| ==> r[i] == Retimed(sessions[i], close)
  {
    seq(|sessions|, i requires 0 <= i < |sessions| => Retimed(sessions[i], close))
  }

  /** Where a run stops: at a subject's re-time, or after it at the subject's update. */
  datatype Stop = AtRetime(subject: nat) | AtUpdate(subject: nat)

  /** What the first `k` planned closes did to a session. */
  ghost predicate RetimedBy(was: Session, now: Session, plan: seq<Close>, k: nat)
    requires k <= |plan|
  {
    && now == was.(closesAt := now.closesAt)
    && now.closesAt <= was.closesAt
    && (now.closesAt != was.closesAt ==>
          was.collecting && exists i :: 0 <= i < k && plan[i].subject == was.subject && plan[i].at == now.closesAt)
    && (was.collecting ==> forall i :: 0 <= i < k && plan[i].subject == was.subject ==> now.closesAt <= plan[i].at)
  }

  ghost predicate AllRetimedBy(was: seq<Session>, now: seq<Session>, plan: seq<Close>, k: nat)
    requires k <= |plan|
  {
    |now| == |was| && forall s :: 0 <= s < |was| ==> RetimedBy(was[s], now[s], plan, k)
  }

  lemma RetimedOnce(was: Session, now: Session, plan: seq<Close>, k: nat)
    requires k < |plan| && RetimedBy(was, now, plan, k)
    ensures RetimedBy(was, Retimed(now, plan[k]), plan, k + 1)
  {
  }

  lemma AllRetimedOnce(was: seq<Session>, now: seq<Session>, plan: seq<Close>, k: nat)
    requires k < |plan| && AllRetimedBy(was, now, plan, k)
    ensures AllRetimedBy(was, RetimedAll(now, plan[k]), plan, k + 1)
  {
    forall s | 0 <= s < |was| ensures RetimedBy(was[s], Retimed(now[s], plan[k]), plan, k + 1) {
      RetimedOnce(was[s], now[s], plan, k);
    }
  }

  /** The first `k` planned subjects are on the short grid from their close, and no other row changed. */
  ghost predicate Anchored(was: map<string, Schedule>, now: map<string, Schedule>, plan: seq<Close>, seconds: nat, k: nat)
    requires k <= |plan|
  {
    && (forall i :: 0 <= i < k ==> plan[i].subject in now && now[plan[i].subject] == Schedule(seconds, plan[i].at))
    && forall id :: !Planned(plan, k, id) ==> SameRow(was, now, id)
  }

  predicate Planned(plan: seq<Close>, k: nat, id: string)
    requires k <= |plan|
  {
    exists i :: 0 <= i < k && plan[i].subject == id
  }

  ghost predicate SameRow(was: map<string, Schedule>, now: map<string, Schedule>, id: string) {
    if id in was then id in now && now[id] == was[id] else id !in now
  }

  lemma AnchoredOnce(was: map<string, Schedule>, now: map<string, Schedule>, plan: seq<Close>, seconds: nat, k: nat)
    requires k < |plan| && Anchored(was, now, plan, seconds, k)
    requires forall i, j :: 0 <= i < j < |plan| ==> plan[i].subject != plan[j].subject
    ensures Anchored(was, now[plan[k].subject := Schedule(seconds, plan[k].at)], plan, seconds, k + 1)
  {
    var next := now[plan[k].subject := Schedule(seconds, plan[k].at)];
    forall id | !Planned(plan, k + 1, id) ensures SameRow(was, next, id) {
      assert plan[k].subject != id && !Planned(plan, k, id);
    }
  }

  class Twin {
    var sessions: seq<Session>
    var subjects: map<string, Schedule>

    constructor (sessions: seq<Session>, subjects: map<string, Schedule>)
      ensures this.sessions == sessions && this.subjects == subjects
    {
      this.sessions, this.subjects := sessions, subjects;
    }

    /** The main loop: re-time each subject's open windows, then put the subject on the short grid from its
        close. It stops at the first failure. No window ever moves later; only collecting windows of planned
        subjects move, each to its own subject's close; and every subject it got to is anchored there. */
    method Accelerate(now: int, seconds: nat, ids: seq<string>, stop: Option<Stop>) returns (done: nat)
      requires forall i, j :: 0 <= i < j < |ids| ==> ids[i] != ids[j]
      modifies this
      ensures done <= |ids| && (stop == None ==> done == |ids|)
      ensures var retimed := if stop == Some(AtUpdate(done)) && done < |ids| then done + 1 else done;
              AllRetimedBy(old(sessions), sessions, PlanCloses(now, seconds, ids), retimed)
      ensures Anchored(old(subjects), subjects, PlanCloses(now, seconds, ids), seconds, done)
    {
      var plan := PlanCloses(now, seconds, ids);
      done := 0;
      while done < |ids|
        invariant 0 <= done <= |ids|
        invariant AllRetimedBy(old(sessions), sessions, plan, done)
        invariant Anchored(old(subjects), subjects, plan, seconds, done)
      {
        if stop == Some(AtRetime(done)) { return; }
        AllRetimedOnce(old(sessions), sessions, plan, done);
        sessions := RetimedAll(sessions, plan[done]);
        if stop == Some(AtUpdate(done)) { return; }
        AnchoredOnce(old(subjects), subjects, plan, seconds, done);
        subjects := subjects[plan[done].subject := Schedule(seconds, plan[done].at)];
        done := done + 1;
      }
    }
  }
}
