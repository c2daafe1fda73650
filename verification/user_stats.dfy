/**
 * The user statistics read: a fold over the user's logs giving the log count,
 * the quantity per waste type, the total quantity diverted, and the CO2 saved
 * (half a unit per unit of quantity, counted only for logs whose type is
 * exactly "Recycled").
 */
module UserStats {
  import opened Records
  import Ledger

  /** One key of the breakdown object and its value. */
  datatype Tally = Tally(wasteType: string, total: int)

  /** The reply of the statistics read. */
  datatype Stats = Stats(
    ecoPoints: int,
    badges: seq<string>,
    logCount: nat,
    wasteBreakdown: seq<Tally>,
    co2Saved: real,
    wasteDiverted: int)

  /** The only type the CO2 estimate counts. */
  const Recycled: string := "Recycled"

  /** The `type` values the log-waste form sends (its category ids). */
  const FormCategoryIds: seq<string> := ["plastic", "paper", "glass", "metal", "organic", "electronic"]

  /** The keys of a breakdown. */
  function KeysOf(b: seq<Tally>): set<string> {
    set e | e in b :: e.wasteType
  }

  /** The value under key `t`, if the key is present. */
  function Lookup(b: seq<Tally>, t: string): Option<int> {
    if b == [] then None
    else if b[0].wasteType == t then Some(b[0].total)
    else Lookup(b[1..], t)
  }

  predicate DistinctKeys(b: seq<Tally>) {
    forall i, j :: 0 <= i < j < |b| ==> b[i].wasteType != b[j].wasteType
  }

  /** The sum of the breakdown's values. */
  function SumOfTotals(b: seq<Tally>): int {
    if b == [] then 0 else b[0].total + SumOfTotals(b[1..])
  }

  /**
   * `acc[t] = (acc[t] || 0) + q`: an existing key is updated where it stands,
   * a new key goes last. (A JavaScript object lists integer-like keys first,
   * in ascending order; the contracts here speak of keys and values only.)
   */
  function Tallied(b: seq<Tally>, t: string, q: int): (r: seq<Tally>)
    ensures |b| <= |r| <= |b| + 1
  {
    if b == [] then [Tally(t, q)]
    else if b[0].wasteType == t then [Tally(t, b[0].total + q)] + b[1..]
    else [b[0]] + Tallied(b[1..], t, q)
  }

  lemma KeysOfCons(e: Tally, b: seq<Tally>)
    ensures KeysOf([e] + b) == {e.wasteType} + KeysOf(b)
  {
    assert forall x :: x in [e] + b <==> x == e || x in b;
  }

  /** Tallying adds the key `t` and no other. */
  lemma {:induction false} TalliedKeys(b: seq<Tally>, t: string, q: int)
    ensures KeysOf(Tallied(b, t, q)) == KeysOf(b) + {t}
  {
    if b != [] {
      assert b == [b[0]] + b[1..];
      KeysOfCons(b[0], b[1..]);
      if b[0].wasteType == t {
        KeysOfCons(Tally(t, b[0].total + q), b[1..]);
      } else {
        TalliedKeys(b[1..], t, q);
        KeysOfCons(b[0], Tallied(b[1..], t, q));
      }
    }
  }

  /** Tallying sets the value under `t` to `(old value || 0) + q` and leaves every other key's value. */
  lemma {:induction false} TalliedLookup(b: seq<Tally>, t: string, q: int)
    ensures Lookup(Tallied(b, t, q), t) == Some(OrZero(Lookup(b, t)) + q)
    ensures forall s :: s != t ==> Lookup(Tallied(b, t, q), s) == Lookup(b, s)
  {
    if b != [] && b[0].wasteType != t {
      TalliedLookup(b[1..], t, q);
    }
  }

  /** Tallying keeps the keys distinct. */
  lemma {:induction false} TalliedDistinct(b: seq<Tally>, t: string, q: int)
    requires DistinctKeys(b)
    ensures DistinctKeys(Tallied(b, t, q))
  {
    if b != [] && b[0].wasteType != t {
      TalliedDistinct(b[1..], t, q);
      TalliedKeys(b[1..], t, q);
      HeadKeyNotInTail(b);
      ConsDistinct(b[0], Tallied(b[1..], t, q));
    }
  }

  /** With distinct keys, the first key does not recur. */
  lemma HeadKeyNotInTail(b: seq<Tally>)
    requires b != [] && DistinctKeys(b)
    ensures b[0].wasteType !in KeysOf(b[1..])
  {
    forall x | x in KeysOf(b[1..]) ensures x != b[0].wasteType {
      var e :| e in b[1..] && e.wasteType == x;
      var k :| 0 <= k < |b[1..]| && b[1..][k] == e;
      assert b[k + 1] == e;
    }
  }

  /** A new key in front of distinct keys keeps them distinct. */
  lemma ConsDistinct(e: Tally, rest: seq<Tally>)
    requires DistinctKeys(rest) && e.wasteType !in KeysOf(rest)
    ensures DistinctKeys([e] + rest)
  {
    var r := [e] + rest;
    forall i, j | 0 <= i < j < |r| ensures r[i].wasteType != r[j].wasteType {
      if i == 0 {
        assert r[j] == rest[j - 1] && rest[j - 1] in rest;
        assert r[j].wasteType in KeysOf(rest);
      } else {
        assert r[i] == rest[i - 1] && r[j] == rest[j - 1];
      }
    }
  }

  /** Tallying adds `q` to the sum of the values. */
  lemma {:induction false} TalliedSum(b: seq<Tally>, t: string, q: int)
    ensures SumOfTotals(Tallied(b, t, q)) == SumOfTotals(b) + q
  {
    if b != [] && b[0].wasteType != t {
      TalliedSum(b[1..], t, q);
    }
  }

  /** The breakdown fold (`logs.reduce`, left to right, from `{}`). */
  function Breakdown(logs: seq<WasteLog>): seq<Tally> {
    if logs == [] then []
    else
      var last := logs[|logs| - 1];
      Tallied(Breakdown(logs[..|logs| - 1]), last.wasteType, last.quantity)
  }

  /** The diverted-waste fold: the sum of all quantities. */
  function Diverted(logs: seq<WasteLog>): int {
    if logs == [] then 0 else Diverted(logs[..|logs| - 1]) + logs[|logs| - 1].quantity
  }

  /** The CO2 fold: half of the quantity of each "Recycled" log, nothing for any other. */
  function Co2Saved(logs: seq<WasteLog>): real {
    if logs == [] then 0.0
    else
      var last := logs[|logs| - 1];
      Co2Saved(logs[..|logs| - 1]) + (if last.wasteType == Recycled then last.quantity as real * 0.5 else 0.0)
  }

  /** Reference definition: the total quantity of the logs of type `t`. */
  function QuantityOf(logs: seq<WasteLog>, t: string): int {
    if logs == [] then 0
    else if logs[0].wasteType == t then logs[0].quantity + QuantityOf(logs[1..], t)
    else QuantityOf(logs[1..], t)
  }

  /** The types present among the logs. */
  function TypesOf(logs: seq<WasteLog>): set<string> {
    set l | l in logs :: l.wasteType
  }

  lemma {:induction false} QuantityOfSnoc(logs: seq<WasteLog>, l: WasteLog, t: string)
    ensures QuantityOf(logs + [l], t) == QuantityOf(logs, t) + (if l.wasteType == t then l.quantity else 0)
  {
    if logs != [] {
      assert (logs + [l])[1..] == logs[1..] + [l];
      QuantityOfSnoc(logs[1..], l, t);
    }
  }

  lemma TypesOfSnoc(logs: seq<WasteLog>, l: WasteLog)
    ensures TypesOf(logs + [l]) == TypesOf(logs) + {l.wasteType}
  {
    assert forall x :: x in logs + [l] <==> x in logs || x == l;
  }

  lemma {:induction false} QuantityOfAbsentType(logs: seq<WasteLog>, t: string)
    requires t !in TypesOf(logs)
    ensures QuantityOf(logs, t) == 0
  {
    if logs != [] {
      assert logs[0] in logs;
      assert TypesOf(logs[1..]) <= TypesOf(logs) by {
        forall x | x in logs[1..] ensures x in logs { }
      }
      QuantityOfAbsentType(logs[1..], t);
    }
  }

  /** The breakdown's keys are exactly the types present, each once. */
  lemma {:induction false} BreakdownKeys(logs: seq<WasteLog>)
    ensures KeysOf(Breakdown(logs)) == TypesOf(logs)
    ensures DistinctKeys(Breakdown(logs))
  {
    if logs != [] {
      var init, last := logs[..|logs| - 1], logs[|logs| - 1];
      assert logs == init + [last];
      BreakdownKeys(init);
      TypesOfSnoc(init, last);
      TalliedKeys(Breakdown(init), last.wasteType, last.quantity);
      TalliedDistinct(Breakdown(init), last.wasteType, last.quantity);
    }
  }

  /** The value under each type present is the total quantity of that type; other types have no value. */
  lemma {:induction false} BreakdownValues(logs: seq<WasteLog>, t: string)
    ensures Lookup(Breakdown(logs), t) == (if t in TypesOf(logs) then Some(QuantityOf(logs, t)) else None)
  {
    if logs != [] {
      var init, last := logs[..|logs| - 1], logs[|logs| - 1];
      assert logs == init + [last];
      BreakdownValues(init, t);
      TypesOfSnoc(init, last);
      TalliedLookup(Breakdown(init), last.wasteType, last.quantity);
      QuantityOfSnoc(init, last, t);
      if t == last.wasteType && t !in TypesOf(init) {
        QuantityOfAbsentType(init, t);
      }
    }
  }

  /**
   * The breakdown's keys are exactly the types present, each once, and the
   * value under each is the total quantity of that type.
   */
  lemma BreakdownIsPerTypeTotal(logs: seq<WasteLog>)
    ensures KeysOf(Breakdown(logs)) == TypesOf(logs)
    ensures DistinctKeys(Breakdown(logs))
    ensures forall t :: (Lookup(Breakdown(logs), t) ==
      (if t in TypesOf(logs) then Some(QuantityOf(logs, t)) else None))
  {
    BreakdownKeys(logs);
    forall t ensures Lookup(Breakdown(logs), t) ==
      (if t in TypesOf(logs) then Some(QuantityOf(logs, t)) else None)
    {
      BreakdownValues(logs, t);
    }
  }

  /** The breakdown's values add up to the diverted total. */
  lemma {:induction false} BreakdownSumsToDiverted(logs: seq<WasteLog>)
    ensures SumOfTotals(Breakdown(logs)) == Diverted(logs)
  {
    if logs != [] {
      var init, last := logs[..|logs| - 1], logs[|logs| - 1];
      BreakdownSumsToDiverted(init);
      TalliedSum(Breakdown(init), last.wasteType, last.quantity);
    }
  }

  /** The CO2 estimate is half the total quantity of type "Recycled". */
  lemma {:induction false} Co2IsHalfOfRecycled(logs: seq<WasteLog>)
    ensures Co2Saved(logs) == 0.5 * (QuantityOf(logs, Recycled) as real)
  {
    if logs != [] {
      var init, last := logs[..|logs| - 1], logs[|logs| - 1];
      assert logs == init + [last];
      Co2IsHalfOfRecycled(init);
      QuantityOfSnoc(init, last, Recycled);
    }
  }

  /** The CO2 estimate read off the breakdown: half its "Recycled" value, or zero without that key. */
  lemma Co2FromBreakdown(logs: seq<WasteLog>)
    ensures Co2Saved(logs) == 0.5 * (OrZero(Lookup(Breakdown(logs), Recycled)) as real)
  {
    BreakdownIsPerTypeTotal(logs);
    Co2IsHalfOfRecycled(logs);
    if Recycled !in TypesOf(logs) {
      QuantityOfAbsentType(logs, Recycled);
    }
  }

  /**
   * No log the log-waste form produces is of type "Recycled" (its ids are
   * lower-case material names), so such logs never add to the CO2 estimate.
   */
  lemma FormLogsSaveNoCo2(logs: seq<WasteLog>)
    requires forall l :: l in logs ==> l.wasteType in FormCategoryIds
    ensures Co2Saved(logs) == 0.0
  {
    assert Recycled !in TypesOf(logs);
    QuantityOfAbsentType(logs, Recycled);
    Co2IsHalfOfRecycled(logs);
  }

  /**
   * getUserStats. An unknown user answers 404. Otherwise points and badges are
   * copied from the user record, and the figures are folds over the logs the
   * user owns: their number, the per-type totals (keys exactly the types
   * present, each once), their sum, and half the "Recycled"
   * total as CO2 (zero when that key is absent).
   */
  function GetUserStats(db: Db, uid: UserId): (r: Response<Stats>)
    ensures uid !in db.users ==> r == NotFound
    ensures uid in db.users ==>
      var owned := Ledger.LogsOf(db.logs, uid);
      && r.Ok?
      && r.value.ecoPoints == db.users[uid].ecoPoints
      && r.value.badges == db.users[uid].badges
      && r.value.logCount == |owned|
      && KeysOf(r.value.wasteBreakdown) == TypesOf(owned)
      && DistinctKeys(r.value.wasteBreakdown)
      && (forall t :: Lookup(r.value.wasteBreakdown, t) ==
            (if t in TypesOf(owned) then Some(QuantityOf(owned, t)) else None))
      && r.value.wasteDiverted == Diverted(owned)
      && SumOfTotals(r.value.wasteBreakdown) == r.value.wasteDiverted
      && r.value.co2Saved == 0.5 * (OrZero(Lookup(r.value.wasteBreakdown, Recycled)) as real)
  {
    if uid !in db.users then NotFound
    else
      var owned := Ledger.LogsOf(db.logs, uid);
      BreakdownIsPerTypeTotal(owned);
      BreakdownSumsToDiverted(owned);
      Co2FromBreakdown(owned);
      Ok(Stats(db.users[uid].ecoPoints, db.users[uid].badges, |owned|,
               Breakdown(owned), Co2Saved(owned), Diverted(owned)))
  }
}
