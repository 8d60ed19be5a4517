// LimitAt of fs/bwtimetable.go: which slot of a weekly bandwidth timetable is in force.
module Timetable {

  import Modular

  datatype Bandwidth = Bandwidth(tx: int, rx: int)

  datatype Slot = Slot(day: int, hhmm: int, bandwidth: Bandwidth)

  const WEEK: int := 10080

  predicate ValidClock(hhmm: int) {
    0 <= hhmm && hhmm / 100 < 24 && hhmm % 100 < 60
  }

  predicate ValidSlot(s: Slot) {
    0 <= s.day < 7 && ValidClock(s.hhmm)
  }

  // The number that the slots and the time are compared by.
  function Stamp(day: int, hhmm: int): int {
    day * 10000 + hhmm
  }

  // Minutes since the start of the week.
  function Minutes(stamp: int): int
    requires stamp >= 0
  {
    stamp / 10000 * 24 * 60 + stamp / 100 % 100 * 60 + stamp % 100
  }

  function TimeDiff(late: int, early: int): int
    requires late >= 0 && early >= 0
  {
    Minutes(late) - Minutes(early)
  }

  // The same for a slot, from its day and its clock.
  function SlotMinutes(s: Slot): int
    requires ValidSlot(s)
  {
    s.day * 1440 + s.hhmm / 100 * 60 + s.hhmm % 100
  }

  // A day, an hour and a minute, written side by side in decimal.
  predicate ValidStamp(stamp: int) {
    0 <= stamp && stamp / 100 % 100 < 24 && stamp % 100 < 60
  }

  lemma MinutesOf(day: int, hhmm: int)
    requires 0 <= day < 7 && ValidClock(hhmm)
    ensures ValidStamp(Stamp(day, hhmm))
    ensures Minutes(Stamp(day, hhmm)) == day * 1440 + hhmm / 100 * 60 + hhmm % 100
  {
    var s, h := Stamp(day, hhmm), hhmm / 100;
    Modular.ModUnique(s, day, hhmm, 10000);
    Modular.ModUnique(s, 100 * day + h, hhmm % 100, 100);
    Modular.ModUnique(100 * day + h, day, h, 100);
  }

  lemma ClockOrder(d: int, h: int, m: int, d': int, h': int, m': int)
    requires 0 <= h < 24 && 0 <= m < 60 && 0 <= h' < 24 && 0 <= m' < 60
    ensures d * 10000 + h * 100 + m < d' * 10000 + h' * 100 + m' <==> d * 1440 + h * 60 + m < d' * 1440 + h' * 60 + m'
  {
    if d == d' {
      if h < h' {
      } else if h > h' {
      }
    } else if d < d' {
      assert d + 1 <= d';
    } else {
      assert d' + 1 <= d;
    }
  }

  // Comparing stamps is comparing minutes.
  lemma SameOrder(a: int, b: int)
    requires ValidStamp(a) && ValidStamp(b)
    ensures a < b <==> Minutes(a) < Minutes(b)
  {
    var (d, h, m) := (a / 10000, a / 100 % 100, a % 100);
    var (d', h', m') := (b / 10000, b / 100 % 100, b % 100);
    assert Minutes(a) == d * 1440 + h * 60 + m && Minutes(b) == d' * 1440 + h' * 60 + m';
    hide Minutes;
    Digits(a);
    Digits(b);
    ClockOrder(d, h, m, d', h', m');
  }

  lemma Digits(a: int)
    requires a >= 0
    ensures a == a / 10000 * 10000 + a / 100 % 100 * 100 + a % 100
  {
    assert a == a / 100 * 100 + a % 100;
    Modular.ModUnique(a, a / 10000, a % 10000, 10000);
  }

  ghost predicate ValidTable(x: seq<Slot>) {
    x != [] && forall i | 0 <= i < |x| :: ValidSlot(x[i])
  }

  // How long ago the slot began, going back over the start of the week if need be.
  function Age(s: Slot, now: int): int
    requires ValidSlot(s)
  {
    (now - SlotMinutes(s)) % WEEK
  }

  // Slot i began last; of several slots that begin together it is the last in the table.
  ghost predicate InForce(x: seq<Slot>, now: int, i: nat)
    requires ValidTable(x)
  {
    && i < |x|
    && (forall j | 0 <= j < |x| :: Age(x[i], now) <= Age(x[j], now))
    && (forall j | i < j < |x| :: Age(x[i], now) < Age(x[j], now))
  }

  lemma AgeOf(s: Slot, now: int)
    requires ValidSlot(s) && 0 <= now < WEEK
    ensures Age(s, now) == if SlotMinutes(s) <= now then now - SlotMinutes(s) else now - SlotMinutes(s) + WEEK
    ensures 0 <= SlotMinutes(s) < WEEK
  {
    assert 0 <= SlotMinutes(s) < WEEK;
    hide SlotMinutes;
    var d := now - SlotMinutes(s);
    if d >= 0 {
      Modular.ModUnique(d, 0, d, WEEK);
    } else {
      Modular.ModUnique(d, -1, d + WEEK, WEEK);
    }
  }

  // The last of the slots below n that have begun this week and began latest, or none.
  ghost predicate Latest(x: seq<Slot>, now: int, n: nat, best: int)
    requires ValidTable(x) && n <= |x|
  {
    if best < 0 then forall j | 0 <= j < n :: SlotMinutes(x[j]) > now
    else
      && best < n && SlotMinutes(x[best]) <= now
      && (forall j | 0 <= j < n && SlotMinutes(x[j]) <= now :: SlotMinutes(x[j]) <= SlotMinutes(x[best]))
      && (forall j | best < j < n && SlotMinutes(x[j]) <= now :: SlotMinutes(x[j]) < SlotMinutes(x[best]))
  }

  // Some slot has begun this week.
  ghost predicate HasBegun(x: seq<Slot>, now: int)
    requires ValidTable(x)
  {
    exists i | 0 <= i < |x| :: SlotMinutes(x[i]) <= now
  }

  // weekday, hour and minute are those of the time asked about.
  method LimitAt(x: seq<Slot>, weekday: int, hour: int, minute: int) returns (ret: Slot)
    requires x != [] ==> ValidTable(x)
    requires 0 <= weekday < 7 && 0 <= hour < 24 && 0 <= minute < 60
    ensures x == [] ==> ret == Slot(0, 0, Bandwidth(-1, -1))
    ensures x != [] ==>
      var now := weekday * 1440 + hour * 60 + minute;
      if HasBegun(x, now)
      then exists best: nat :: best < |x| && Latest(x, now, |x|, best) && ret == x[best]
      else ret == x[|x| - 1]
  {
    hide Minutes, SlotMinutes, Latest;
    if |x| == 0 {
      return Slot(0, 0, Bandwidth(-1, -1));
    }
    var dayOfWeekHHMM := weekday * 10000 + hour * 100 + minute;
    ghost var now := weekday * 1440 + hour * 60 + minute;
    ret := x[|x| - 1];
    var mindif := 0;
    var first := true;
    ghost var best: int := -1;
    NoneLatest(x, now);
    for i := 0 to |x|
      invariant best < i && Latest(x, now, i, best) && (first <==> best < 0)
      invariant first ==> ret == x[|x| - 1]
      invariant !first ==> ret == x[best] && mindif == now - SlotMinutes(x[best])
    {
      var ts := x[i];
      Compared(ts, weekday, hour, minute);
      LatestStep(x, now, i, best);
      if dayOfWeekHHMM >= ts.day * 10000 + ts.hhmm {
        var dif := TimeDiff(dayOfWeekHHMM, ts.day * 10000 + ts.hhmm);
        if first {
          mindif := dif;
          first := false;
        }
        if dif <= mindif {
          mindif := dif;
          ret := ts;
          best := i;
        }
      }
    }
    LatestFound(x, now, best);
  }

  lemma NoneLatest(x: seq<Slot>, now: int)
    requires ValidTable(x)
    ensures Latest(x, now, 0, -1)
  {
  }

  lemma LatestStep(x: seq<Slot>, now: int, n: nat, best: int)
    requires ValidTable(x) && n < |x| && Latest(x, now, n, best)
    ensures SlotMinutes(x[n]) > now ==> Latest(x, now, n + 1, best)
    ensures SlotMinutes(x[n]) <= now && best < 0 ==> Latest(x, now, n + 1, n)
    ensures best >= 0 ==> best < n
    ensures SlotMinutes(x[n]) <= now && best >= 0 ==>
      Latest(x, now, n + 1, if SlotMinutes(x[n]) >= SlotMinutes(x[best]) then n else best)
  {
    hide SlotMinutes;
  }

  lemma LatestFound(x: seq<Slot>, now: int, best: int)
    requires ValidTable(x) && Latest(x, now, |x|, best)
    ensures best >= 0 <==> HasBegun(x, now)
    ensures best < |x|
  {
    hide SlotMinutes;
    if best >= 0 {
      assert SlotMinutes(x[best]) <= now;
    }
  }

  // The comparison and the difference in the loop are those of minutes.
  lemma Compared(ts: Slot, weekday: int, hour: int, minute: int)
    requires ValidSlot(ts) && 0 <= weekday < 7 && 0 <= hour < 24 && 0 <= minute < 60
    ensures ts.day * 10000 + ts.hhmm >= 0 && weekday * 10000 + hour * 100 + minute >= 0
    ensures var now := weekday * 1440 + hour * 60 + minute;
            && (weekday * 10000 + hour * 100 + minute >= ts.day * 10000 + ts.hhmm <==> SlotMinutes(ts) <= now)
            && TimeDiff(weekday * 10000 + hour * 100 + minute, ts.day * 10000 + ts.hhmm) == now - SlotMinutes(ts)
  {
    hide Minutes, ValidStamp;
    var late, early := weekday * 10000 + hour * 100 + minute, ts.day * 10000 + ts.hhmm;
    assert ValidStamp(late) && Minutes(late) == weekday * 1440 + hour * 60 + minute by {
      ClockMinutes(weekday, hour, minute);
    }
    assert ValidStamp(early) && Minutes(early) == SlotMinutes(ts) by { MinutesOf(ts.day, ts.hhmm); }
    hide SlotMinutes, ValidClock, ValidSlot;
    SameOrder(late, early);
    SameOrder(early, late);
  }

  lemma ClockMinutes(weekday: int, hour: int, minute: int)
    requires 0 <= weekday < 7 && 0 <= hour < 24 && 0 <= minute < 60
    ensures var stamp := weekday * 10000 + hour * 100 + minute;
            ValidStamp(stamp) && Minutes(stamp) == weekday * 1440 + hour * 60 + minute
  {
    hide Minutes, ValidStamp;
    Modular.ModUnique(hour * 100 + minute, hour, minute, 100);
    MinutesOf(weekday, hour * 100 + minute);
  }

  // ---------- When the slot in force is returned ----------

  // A slot that began this week began later than every slot of last week.
  lemma LatestIsInForce(x: seq<Slot>, now: int, best: nat)
    requires ValidTable(x) && 0 <= now < WEEK && Latest(x, now, |x|, best)
    ensures InForce(x, now, best)
  {
    hide SlotMinutes, Age;
    forall j | 0 <= j < |x|
      ensures Age(x[best], now) <= Age(x[j], now) && (j > best ==> Age(x[best], now) < Age(x[j], now))
    {
      AgeOf(x[best], now);
      AgeOf(x[j], now);
    }
  }

  lemma InForceUnique(x: seq<Slot>, now: int, i: nat, j: nat)
    requires ValidTable(x) && InForce(x, now, i) && InForce(x, now, j)
    ensures i == j
  {
    hide Age;
    assert Age(x[i], now) <= Age(x[j], now) && Age(x[j], now) <= Age(x[i], now);
  }

  // Slot i is in force, and no other.
  ghost predicate OnlyInForce(x: seq<Slot>, now: int, i: nat)
    requires ValidTable(x)
  {
    InForce(x, now, i) && forall j: nat | InForce(x, now, j) :: j == i
  }

  // Exactly one slot is in force.
  lemma {:induction false} OneInForce(x: seq<Slot>, now: int) returns (i: nat)
    requires ValidTable(x)
    ensures i < |x| && OnlyInForce(x, now, i)
    decreases |x|
  {
    hide Age;
    var n := |x| - 1;
    i := n;
    if n > 0 {
      var rest := x[..n];
      var best := OneInForce(rest, now);
      i := if Age(x[n], now) <= Age(x[best], now) then n else best;
      forall j | 0 <= j < |x| ensures Age(x[i], now) <= Age(x[j], now) && (i < j ==> Age(x[i], now) < Age(x[j], now)) {
        assert j < n ==> rest[j] == x[j];
      }
    }
    forall j: nat | InForce(x, now, j) ensures j == i {
      InForceUnique(x, now, i, j);
    }
  }

  // No later slot in the week than the last of the table.
  ghost predicate LastIsLatest(x: seq<Slot>)
    requires ValidTable(x)
  {
    forall i | 0 <= i < |x| :: SlotMinutes(x[i]) <= SlotMinutes(x[|x| - 1])
  }

  lemma WrapsAround(x: seq<Slot>, now: int)
    requires ValidTable(x) && 0 <= now < WEEK && forall i | 0 <= i < |x| :: SlotMinutes(x[i]) > now
    ensures InForce(x, now, |x| - 1) <==> LastIsLatest(x)
    ensures forall i: nat | InForce(x, now, i) && x[i] == x[|x| - 1] :: LastIsLatest(x)
  {
    hide SlotMinutes, Age;
    forall i | 0 <= i < |x| ensures Age(x[i], now) == now - SlotMinutes(x[i]) + WEEK {
      AgeOf(x[i], now);
    }
  }

  // The one slot in force is returned exactly when some slot has begun this week or the table
  // ends with the slot that is latest in the week.
  method LimitInForce(x: seq<Slot>, weekday: int, hour: int, minute: int) returns (ret: Slot)
    requires ValidTable(x) && 0 <= weekday < 7 && 0 <= hour < 24 && 0 <= minute < 60
    ensures var now := weekday * 1440 + hour * 60 + minute;
            exists i: nat :: i < |x| && OnlyInForce(x, now, i)
              && (ret == x[i] <==> HasBegun(x, now) || LastIsLatest(x))
  {
    hide SlotMinutes, Age, Latest, InForce, HasBegun, LastIsLatest, OnlyInForce;
    var now := weekday * 1440 + hour * 60 + minute;
    ret := LimitAt(x, weekday, hour, minute);
    ghost var i := OneInForce(x, now);
    if HasBegun(x, now) {
      ghost var best: nat :| best < |x| && Latest(x, now, |x|, best) && ret == x[best];
      LatestIsInForce(x, now, best);
      SameSlot(x, now, i, best);
    } else {
      LastInForce(x, now, i);
    }
    assert OnlyInForce(x, now, i);
  }

  lemma SameSlot(x: seq<Slot>, now: int, i: nat, j: nat)
    requires ValidTable(x) && OnlyInForce(x, now, i) && InForce(x, now, j)
    ensures i == j
  {
  }

  // Before the first slot of the week the last entry is returned.
  lemma LastInForce(x: seq<Slot>, now: int, i: nat)
    requires ValidTable(x) && 0 <= now < WEEK && !HasBegun(x, now) && i < |x| && OnlyInForce(x, now, i)
    ensures x[|x| - 1] == x[i] <==> LastIsLatest(x)
  {
    hide SlotMinutes, InForce, LastIsLatest;
    WrapsAround(x, now);
  }

  // Wednesday 12:00 then Monday 08:00: on Sunday at midnight the slot of Wednesday is in
  // force, and the one of Monday is returned.
  method OutOfOrder() returns (ret: Slot, current: Slot)
    ensures current.day == 3 && ret.day == 1
    ensures var x := [Slot(3, 1200, Bandwidth(1, 1)), Slot(1, 800, Bandwidth(2, 2))];
            && ValidTable(x) && OnlyInForce(x, 0, 0) && current == x[0]
            && !HasBegun(x, 0) && ret == x[|x| - 1] && !LastIsLatest(x)
  {
    var x := [Slot(3, 1200, Bandwidth(1, 1)), Slot(1, 800, Bandwidth(2, 2))];
    ret := LimitAt(x, 0, 0, 0);
    current := x[0];
    ExampleMinutes();
    hide Minutes, Stamp, Age;
    AgeOf(x[0], 0);
    AgeOf(x[1], 0);
  }

  lemma ExampleMinutes()
    ensures Minutes(Stamp(3, 1200)) == 5040 && Minutes(Stamp(1, 800)) == 1920
  {
    MinutesOf(3, 1200);
    MinutesOf(1, 800);
  }
}
