/** Per-tenant cost records: services/ai/model/cost.py. */
module CostTracker {
  import opened Common

  type TenantId = string

  datatype Date = Date(year: int, month: int, day: int)

  datatype CostRecord = CostRecord(
    tenant: TenantId, user: string, trace: string, provider: string, model: string,
    promptTokens: int, completionTokens: int, totalTokens: int, costUsd: real, ts: Date)

  const MAX_RECORDS := 10000
  const KEPT_RECORDS := 5000

  // ---------------------------------------------------------------- what is kept of a whole log

  /** How many of n tracked records are stored: all of them at first, then between 5000 and 10000 in turn. */
  function StoredLength(n: nat): (r: nat)
    ensures r <= n && r <= 10000
    ensures n <= 10000 ==> r == n
    ensures n >= 5000 ==> r >= 5000
    ensures n == 10001 ==> r == 5000
  {
    if n <= MAX_RECORDS then n else KEPT_RECORDS + (n - MAX_RECORDS - 1) % (MAX_RECORDS - KEPT_RECORDS + 1)
  }

  function Dropped(log: seq<CostRecord>): seq<CostRecord> {
    log[..|log| - StoredLength(|log|)]
  }

  /** The stored records: a suffix of the log. */
  function Stored(log: seq<CostRecord>): seq<CostRecord> {
    log[|log| - StoredLength(|log|)..]
  }

  /** Appending to the stored records and truncating them gives the stored records of the longer log. */
  lemma StoringIsIncremental(log: seq<CostRecord>, record: CostRecord)
    ensures var appended := Stored(log) + [record];
            Stored(log + [record]) ==
              if |appended| > MAX_RECORDS then appended[|appended| - KEPT_RECORDS..] else appended
  {
    var kept := StoredLength(|log|);
    StoredLengthSteps(|log|);
    SuffixAppend(log, record, |log| - kept);
    if kept + 1 > MAX_RECORDS {
      SuffixOfSuffix(log + [record], |log| - kept, kept + 1 - KEPT_RECORDS);
    }
  }

  lemma StoredLengthSteps(n: nat)
    ensures StoredLength(n + 1) == if StoredLength(n) + 1 > MAX_RECORDS then KEPT_RECORDS else StoredLength(n) + 1
  {
    var period := MAX_RECORDS - KEPT_RECORDS + 1;
    if n > MAX_RECORDS {
      var x := n - MAX_RECORDS - 1;
      assert (x + 1) % period == if x % period == period - 1 then 0 else x % period + 1;
    }
  }

  lemma SuffixAppend(log: seq<CostRecord>, record: CostRecord, k: nat)
    requires k <= |log|
    ensures (log + [record])[k..] == log[k..] + [record]
  {
  }

  lemma SuffixOfSuffix(log: seq<CostRecord>, k: nat, j: nat)
    requires k + j <= |log|
    ensures log[k..][j..] == log[k + j..]
  {
  }

  // ---------------------------------------------------------------- queries

  /** Python's s[-limit:]. */
  function LastPy<T>(s: seq<T>, limit: int): seq<T> {
    if limit > 0 then (if limit >= |s| then s else s[|s| - limit..])
    else if -limit >= |s| then [] else s[-limit..]
  }

  /** A suffix: of `limit` elements where there are so many; for a limit of zero or below all but the first -limit. */
  lemma LastPyIsSuffix<T>(s: seq<T>, limit: int)
    ensures var r := LastPy(s, limit);
            && |r| <= |s| && r == s[|s| - |r|..]
            && (limit > 0 ==> |r| == if limit <= |s| then limit else |s|)
            && (limit <= 0 ==> |r| == if -limit <= |s| then |s| + limit else 0)
  {
  }

  /** An absent or empty name filters nothing. */
  predicate MatchesName(name: string, wanted: Option<string>) {
    wanted.None? || wanted.value == "" || name == wanted.value
  }

  function ByProvider(provider: Option<string>): CostRecord -> bool {
    (r: CostRecord) => MatchesName(r.provider, provider)
  }

  function ByModel(model: Option<string>): CostRecord -> bool {
    (r: CostRecord) => MatchesName(r.model, model)
  }

  function ByBoth(provider: Option<string>, model: Option<string>): CostRecord -> bool {
    (r: CostRecord) => MatchesName(r.provider, provider) && MatchesName(r.model, model)
  }

  function Matching(records: seq<CostRecord>, provider: Option<string>, model: Option<string>): seq<CostRecord> {
    Filter(ByBoth(provider, model), records)
  }

  function TokensOn(records: seq<CostRecord>, counts: CostRecord -> bool): int {
    if records == [] then 0
    else TokensOn(records[..|records| - 1], counts)
         + if counts(records[|records| - 1]) then records[|records| - 1].totalTokens else 0
  }

  /** The record is of the provider and of the model asked for, where one is asked for. */
  ghost predicate IsWanted(rec: CostRecord, provider: Option<string>, model: Option<string>) {
    && (provider.Some? && provider.value != "" ==> rec.provider == provider.value)
    && (model.Some? && model.value != "" ==> rec.model == model.value)
  }

  /** The matching records are those asked for, one for each position. */
  lemma MatchingAreWanted(records: seq<CostRecord>, provider: Option<string>, model: Option<string>)
    ensures forall rec :: rec in Matching(records, provider, model) <==>
              rec in records && IsWanted(rec, provider, model)
    ensures |Matching(records, provider, model)| == |WantedAt(records, provider, model)|
  {
    FilterKeepsEach(ByBoth(provider, model), records);
    assert Positions(ByBoth(provider, model), records) == WantedAt(records, provider, model);
  }

  lemma HistoryIsWanted(log: seq<CostRecord>, provider: Option<string>, model: Option<string>, limit: int)
    ensures var r := LastPy(Matching(Stored(log), provider, model), limit);
            && (forall rec :: rec in r ==> rec in Stored(log) && IsWanted(rec, provider, model))
            && (limit >= 10000 ==> forall rec :: rec in Stored(log) && IsWanted(rec, provider, model) ==> rec in r)
  {
    var all := Matching(Stored(log), provider, model);
    MatchingAreWanted(Stored(log), provider, model);
    LastPyIsSuffix(all, limit);
    assert |all| <= |Stored(log)| <= 10000;
    assert limit >= 10000 ==> LastPy(all, limit) == all;
    assert forall rec :: rec in LastPy(all, limit) ==> rec in all;
  }

  ghost function WantedAt(records: seq<CostRecord>, provider: Option<string>, model: Option<string>): set<int> {
    set i | 0 <= i < |records| && IsWanted(records[i], provider, model)
  }

  /** Each tenant's records are what is stored of its log. */
  ghost predicate Mirrors(records: map<TenantId, seq<CostRecord>>, log: map<TenantId, seq<CostRecord>>) {
    && records.Keys == log.Keys
    && forall t {:trigger records[t]} {:trigger log[t]} :: t in records ==> records[t] == Stored(log[t])
  }

  class Tracker {
    var records: map<TenantId, seq<CostRecord>>
    /** Everything ever tracked for each tenant since its last reset. */
    ghost var log: map<TenantId, seq<CostRecord>>

    ghost predicate Valid()
      reads this
    {
      Mirrors(records, log)
    }

    ghost function LogOf(tenant: TenantId): seq<CostRecord>
      reads this
    {
      if tenant in log then log[tenant] else []
    }

    constructor ()
      ensures Valid() && log == map[]
    {
      records, log := map[], map[];
    }

    method Track(record: CostRecord)
      requires Valid()
      modifies this
      ensures Valid() && log == old(log)[record.tenant := old(LogOf(record.tenant)) + [record]]
    {
      var t := record.tenant;
      ghost var before := LogOf(t);
      var list := if t in records then records[t] else [];
      assert list == Stored(before);
      list := list + [record];
      if |list| > MAX_RECORDS {
        list := list[|list| - KEPT_RECORDS..];
      }
      assert list == Stored(before + [record]) by {
        StoringIsIncremental(before, record);
      }
      records := records[t := list];
      log := log[t := before + [record]];
    }

    method GetTenantHistory(tenant: TenantId, limit: int, provider: Option<string>, model: Option<string>)
      returns (r: seq<CostRecord>)
      requires Valid()
      ensures r == LastPy(Matching(Stored(LogOf(tenant)), provider, model), limit)
      ensures forall rec :: rec in r ==> rec in Stored(LogOf(tenant)) && IsWanted(rec, provider, model)
      ensures limit >= 10000 ==>
                forall rec :: rec in Stored(LogOf(tenant)) && IsWanted(rec, provider, model) ==> rec in r
    {
      HistoryIsWanted(LogOf(tenant), provider, model, limit);
      var stored := if tenant in records then records[tenant] else [];
      FilterTwice(ByProvider(provider), ByModel(model), ByBoth(provider, model), stored);
      if provider.Some? && provider.value != "" {
        stored := Filter(ByProvider(provider), stored);
      } else {
        FilterAll(ByProvider(provider), stored);
      }
      if model.Some? && model.value != "" {
        stored := Filter(ByModel(model), stored);
      } else {
        FilterAll(ByModel(model), stored);
      }
      r := LastPy(stored, limit);
    }

    method GetDailyTokens(tenant: TenantId, day: Date) returns (sum: int)
      requires Valid()
      ensures sum == TokensOn(Stored(LogOf(tenant)), OnDay(day))
    {
      var stored := if tenant in records then records[tenant] else [];
      sum := SumTokens(stored, OnDay(day));
    }

    method GetMonthlyTokens(tenant: TenantId, year: int, month: int) returns (sum: int)
      requires Valid()
      ensures sum == TokensOn(Stored(LogOf(tenant)), InMonth(year, month))
    {
      var stored := if tenant in records then records[tenant] else [];
      sum := SumTokens(stored, InMonth(year, month));
    }

    method ResetRecords(tenant: Option<TenantId>)
      requires Valid()
      modifies this
      ensures Valid() && log == if tenant.None? then map[] else old(log) - {tenant.value}
    {
      if tenant.None? {
        records, log := map[], map[];
      } else {
        records, log := records - {tenant.value}, log - {tenant.value};
      }
    }
  }

  method SumTokens(records: seq<CostRecord>, counts: CostRecord -> bool) returns (sum: int)
    ensures sum == TokensOn(records, counts)
  {
    sum := 0;
    for i := 0 to |records|
      invariant sum == TokensOn(records[..i], counts)
    {
      assert records[..i + 1][..i] == records[..i];
      if counts(records[i]) {
        sum := sum + records[i].totalTokens;
      }
    }
    assert records[..|records|] == records;
  }

  // ---------------------------------------------------------------- agreement with the unbounded log

  lemma {:induction false} MatchingConcat(a: seq<CostRecord>, b: seq<CostRecord>, provider: Option<string>,
                                          model: Option<string>)
    ensures Matching(a + b, provider, model) == Matching(a, provider, model) + Matching(b, provider, model)
  {
    if b == [] {
      assert a + b == a;
    } else {
      assert (a + b)[..|a + b| - 1] == a + b[..|b| - 1];
      MatchingConcat(a, b[..|b| - 1], provider, model);
    }
  }

  /** The last `limit` elements of a suffix are those of the whole exactly when nothing was cut off, or enough is
      left, or (for a negative limit, which skips from the front) nothing is asked for. */
  lemma LastOfSuffix(dropped: seq<CostRecord>, kept: seq<CostRecord>, limit: int)
    ensures LastPy(kept, limit) == LastPy(dropped + kept, limit) <==>
            (dropped == [] || 1 <= limit <= |kept| || (limit < 0 && -limit >= |dropped + kept|))
  {
    if dropped == [] {
      assert dropped + kept == kept;
    } else if 1 <= limit <= |kept| {
      assert LastPy(kept, limit) == LastPy(dropped + kept, limit);
    } else if limit < 0 && -limit >= |dropped + kept| {
      assert LastPy(kept, limit) == LastPy(dropped + kept, limit);
    } else {
      assert |LastPy(kept, limit)| != |LastPy(dropped + kept, limit)|;
    }
  }

  /** A history query on the bounded store answers as on the whole log exactly when no matching record was dropped,
      or the limit is positive and that many matching records are stored. */
  lemma HistoryAgrees(log: seq<CostRecord>, limit: int, provider: Option<string>, model: Option<string>)
    ensures LastPy(Matching(Stored(log), provider, model), limit) == LastPy(Matching(log, provider, model), limit) <==>
            (|| Matching(Dropped(log), provider, model) == []
             || 1 <= limit <= |Matching(Stored(log), provider, model)|
             || (limit < 0 && -limit >= |Matching(log, provider, model)|))
  {
    assert log == Dropped(log) + Stored(log);
    MatchingConcat(Dropped(log), Stored(log), provider, model);
    LastOfSuffix(Matching(Dropped(log), provider, model), Matching(Stored(log), provider, model), limit);
  }

  lemma {:induction false} AllMatch(s: seq<CostRecord>)
    ensures Matching(s, None, None) == s
  {
    if s != [] {
      AllMatch(s[..|s| - 1]);
      assert s == s[..|s| - 1] + [s[|s| - 1]];
    }
  }

  /** An unfiltered query for 1 to 5000 records never notices that the store is bounded. */
  lemma UnfilteredHistoryAgrees(log: seq<CostRecord>, limit: int)
    requires 1 <= limit <= 5000
    ensures LastPy(Matching(Stored(log), None, None), limit) == LastPy(log, limit)
  {
    HistoryAgrees(log, limit, None, None);
    AllMatch(log);
    AllMatch(Stored(log));
    AllMatch(Dropped(log));
  }

  lemma {:induction false} TokensConcat(a: seq<CostRecord>, b: seq<CostRecord>, counts: CostRecord -> bool)
    ensures TokensOn(a + b, counts) == TokensOn(a, counts) + TokensOn(b, counts)
  {
    if b == [] {
      assert a + b == a;
    } else {
      assert (a + b)[..|a + b| - 1] == a + b[..|b| - 1];
      TokensConcat(a, b[..|b| - 1], counts);
    }
  }

  /** A token total falls short of the whole log's by exactly the dropped records of the period; nothing is dropped
      exactly until more than 10000 records have been tracked. */
  lemma TotalsMissOnlyDropped(log: seq<CostRecord>, counts: CostRecord -> bool)
    ensures TokensOn(Stored(log), counts) == TokensOn(log, counts) - TokensOn(Dropped(log), counts)
    ensures Dropped(log) == [] <==> |log| <= 10000
  {
    assert log == Dropped(log) + Stored(log);
    TokensConcat(Dropped(log), Stored(log), counts);
  }

  /** Tracking a record raises the total of a day by its tokens if it is of that day, and leaves the other days; this
      holds of the stored records as long as none is dropped, and of the whole log always. */
  lemma TrackingAddsTokens(log: seq<CostRecord>, record: CostRecord, day: Date)
    ensures TokensOn([], OnDay(day)) == 0
    ensures TokensOn(log + [record], OnDay(day)) ==
              TokensOn(log, OnDay(day)) + if record.ts == day then record.totalTokens else 0
    ensures |log| < MAX_RECORDS ==>
              TokensOn(Stored(log + [record]), OnDay(day)) ==
                TokensOn(Stored(log), OnDay(day)) + if record.ts == day then record.totalTokens else 0
  {
    assert (log + [record])[..|log|] == log;
    if |log| < MAX_RECORDS {
      assert Stored(log) == log && Stored(log + [record]) == log + [record];
    }
  }

  function OnDay(day: Date): CostRecord -> bool {
    (r: CostRecord) => r.ts == day
  }

  /** The same for months. */
  lemma TrackingAddsToMonth(log: seq<CostRecord>, record: CostRecord, year: int, month: int)
    ensures TokensOn([], InMonth(year, month)) == 0
    ensures TokensOn(log + [record], InMonth(year, month)) ==
              TokensOn(log, InMonth(year, month))
              + if record.ts.year == year && record.ts.month == month then record.totalTokens else 0
  {
    assert (log + [record])[..|log|] == log;
  }

  function InMonth(year: int, month: int): CostRecord -> bool {
    (r: CostRecord) => r.ts.year == year && r.ts.month == month
  }
}
