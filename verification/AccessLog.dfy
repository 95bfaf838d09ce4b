/**
 * The in-memory access log: a ring buffer of the latest requests and statistics for each address
 * over all of them. The ghost history holds every entry ever recorded; the log is specified by it.
 */
module AccessLog {
  import opened Wrappers

  const RING_SIZE: nat := 10000

  /** A timestamp of zero is the zero time. */
  datatype Entry = Entry(ip: string, verb: string, path: string, statusCode: int, latency: int,
                         userAgent: string, timestamp: int)

  datatype IPStats = IPStats(ip: string, requestCount: nat, firstSeen: int, lastSeen: int,
                             lastPath: string, lastVerb: string, lastStatus: int)

  /** The last `n` entries of a history, or all of them. */
  function Latest(history: seq<Entry>, n: nat): seq<Entry> {
    if |history| <= n then history else history[|history| - n..]
  }

  predicate Listed(e: Entry, ipFilter: string) {
    e.timestamp != 0 && (ipFilter == "" || e.ip == ipFilter)
  }

  /** The listed entries, newest first. */
  function NewestFirst(entries: seq<Entry>, ipFilter: string): seq<Entry> {
    if entries == [] then [] else
      var last := entries[|entries| - 1];
      (if Listed(last, ipFilter) then [last] else []) + NewestFirst(entries[..|entries| - 1], ipFilter)
  }

  function First<T>(s: seq<T>, n: nat): seq<T> {
    if |s| <= n then s else s[..n]
  }

  function EffectiveLimit(limit: int): nat {
    if limit <= 0 || limit > RING_SIZE then 500 else limit
  }

  function CountOf(history: seq<Entry>, ip: string): nat {
    if history == [] then 0
    else CountOf(history[..|history| - 1], ip) + if history[|history| - 1].ip == ip then 1 else 0
  }

  /** `e` is the first entry of its address in the history, or the last. */
  ghost predicate IsFirstOf(history: seq<Entry>, i: int) {
    0 <= i < |history| && forall j :: 0 <= j < i ==> history[j].ip != history[i].ip
  }

  ghost predicate IsLastOf(history: seq<Entry>, i: int) {
    0 <= i < |history| && forall j :: i < j < |history| ==> history[j].ip != history[i].ip
  }

  /** The statistics of an address are those of the whole history. */
  ghost predicate Summarises(stats: IPStats, ip: string, history: seq<Entry>) {
    && stats.ip == ip
    && stats.requestCount == CountOf(history, ip)
    && (exists i :: IsFirstOf(history, i) && history[i].ip == ip && history[i].timestamp == stats.firstSeen)
    && (exists i :: IsLastOf(history, i) && history[i].ip == ip && history[i].timestamp == stats.lastSeen
                    && history[i].path == stats.lastPath && history[i].verb == stats.lastVerb
                    && history[i].statusCode == stats.lastStatus)
  }

  ghost predicate Aggregates(ipStats: map<string, IPStats>, history: seq<Entry>) {
    && (forall ip :: ip in ipStats <==> exists i :: 0 <= i < |history| && history[i].ip == ip)
    && (forall ip :: ip in ipStats ==> Summarises(ipStats[ip], ip, history))
  }

  /** Where the entry that is `i` steps older than the newest sits in the ring. */
  function Slot(head: int, i: int): int {
    (head - 1 - i + RING_SIZE) % RING_SIZE
  }

  function Addresses(stats: seq<IPStats>): (r: seq<string>)
    ensures |r| == |stats|
  {
    seq(|stats|, i requires 0 <= i < |stats| => stats[i].ip)
  }

  ghost predicate Distinct<T(!new)>(s: seq<T>) {
    forall i, j :: 0 <= i < j < |s| ==> s[i] != s[j]
  }

  /** One row for each address, holding its statistics. */
  ghost predicate Collected(stats: seq<IPStats>, ipStats: map<string, IPStats>) {
    && Distinct(Addresses(stats))
    && (forall k :: 0 <= k < |stats| ==> stats[k].ip in ipStats && stats[k] == ipStats[stats[k].ip])
    && (forall ip :: ip in ipStats ==> ip in Addresses(stats))
  }

  function TotalRequests(stats: seq<IPStats>): nat {
    if stats == [] then 0 else TotalRequests(stats[..|stats| - 1]) + stats[|stats| - 1].requestCount
  }

  lemma SameAddressSame(s: seq<IPStats>, x: IPStats, y: IPStats)
    requires Distinct(Addresses(s)) && x in multiset(s) && y in multiset(s) && x.ip == y.ip
    ensures x == y
  {
    var a :| 0 <= a < |s| && s[a] == x;
    var b :| 0 <= b < |s| && s[b] == y;
    assert Addresses(s)[a] == Addresses(s)[b];
  }

  lemma OccursTwice(r: seq<IPStats>, i: int, j: int)
    requires 0 <= i < j < |r| && r[i] == r[j]
    ensures multiset(r)[r[i]] >= 2
  {
    assert r == r[..j] + [r[j]] + r[j + 1..];
    assert r[i] in r[..j];
  }

  lemma AddressesSnoc(stats: seq<IPStats>, s: IPStats)
    ensures Addresses(stats + [s]) == Addresses(stats) + [s.ip]
  {
  }

  lemma {:induction false} DistinctOnce(s: seq<IPStats>, x: IPStats)
    requires Distinct(Addresses(s))
    ensures multiset(s)[x] <= 1
  {
    if s == [] {
    } else {
      var init, last := s[..|s| - 1], s[|s| - 1];
      assert s == init + [last];
      AddressesSnoc(init, last);
      assert forall i :: 0 <= i < |init| ==> Addresses(s)[i] == Addresses(init)[i];
      DistinctOnce(init, x);
      assert forall i :: 0 <= i < |init| ==> Addresses(s)[i] != Addresses(s)[|init|];
      forall i | 0 <= i < |init| ensures init[i] != last {
        assert Addresses(s)[i] == init[i].ip && Addresses(s)[|init|] == last.ip;
      }
    }
  }

  /** A permutation of statistics with distinct addresses has distinct addresses, the same ones. */
  lemma PermutedAddresses(s: seq<IPStats>, r: seq<IPStats>)
    requires multiset(r) == multiset(s) && Distinct(Addresses(s))
    ensures Distinct(Addresses(r))
    ensures forall ip :: ip in Addresses(s) ==> ip in Addresses(r)
  {
    forall ip | ip in Addresses(s) ensures ip in Addresses(r) {
      var k :| 0 <= k < |s| && s[k].ip == ip;
      assert s[k] in multiset(r);
      var j :| 0 <= j < |r| && r[j] == s[k];
      assert Addresses(r)[j] == ip;
    }
    forall i, j | 0 <= i < j < |r| ensures r[i].ip != r[j].ip {
      if r[i].ip == r[j].ip {
        SameAddressSame(s, r[i], r[j]);
        OccursTwice(r, i, j);
        DistinctOnce(s, r[i]);
      }
    }
  }

  /** How often the addresses of a list occur in a history. */
  function SumOfCounts(ips: seq<string>, history: seq<Entry>): nat {
    if ips == [] then 0 else SumOfCounts(ips[..|ips| - 1], history) + CountOf(history, ips[|ips| - 1])
  }

  lemma {:induction false} OneMore(ips: seq<string>, history: seq<Entry>, e: Entry)
    requires Distinct(ips)
    ensures SumOfCounts(ips, history + [e]) == SumOfCounts(ips, history) + if e.ip in ips then 1 else 0
  {
    if ips == [] {
    } else {
      var init, last := ips[..|ips| - 1], ips[|ips| - 1];
      assert ips == init + [last];
      assert last !in init;
      OneMore(init, history, e);
      assert (history + [e])[..|history|] == history;
    }
  }

  lemma {:induction false} NothingCounted(ips: seq<string>)
    ensures SumOfCounts(ips, []) == 0
  {
    if ips == [] {
    } else {
      NothingCounted(ips[..|ips| - 1]);
    }
  }

  /** The counts of all addresses add up to the number of entries ever recorded. */
  lemma {:induction false} CountsSumToHistory(ips: seq<string>, history: seq<Entry>)
    requires Distinct(ips) && forall i :: 0 <= i < |history| ==> history[i].ip in ips
    ensures SumOfCounts(ips, history) == |history|
  {
    if history == [] {
      NothingCounted(ips);
    } else {
      var init, last := history[..|history| - 1], history[|history| - 1];
      assert history == init + [last];
      CountsSumToHistory(ips, init);
      OneMore(ips, init, last);
    }
  }

  lemma {:induction false} TotalIsSumOfCounts(stats: seq<IPStats>, history: seq<Entry>)
    requires forall k :: 0 <= k < |stats| ==> stats[k].requestCount == CountOf(history, stats[k].ip)
    ensures TotalRequests(stats) == SumOfCounts(Addresses(stats), history)
  {
    if stats == [] {
    } else {
      var init := stats[..|stats| - 1];
      assert stats == init + [stats[|stats| - 1]];
      AddressesSnoc(init, stats[|stats| - 1]);
      assert Addresses(stats)[..|stats| - 1] == Addresses(init);
      TotalIsSumOfCounts(init, history);
    }
  }

  lemma ReportIsComplete(stats: seq<IPStats>, result: seq<IPStats>, ipStats: map<string, IPStats>, history: seq<Entry>)
    requires Collected(stats, ipStats) && Aggregates(ipStats, history)
    requires multiset(result) == multiset(stats)
    ensures Distinct(Addresses(result))
    ensures forall k :: 0 <= k < |result| ==> Summarises(result[k], result[k].ip, history)
    ensures forall i :: 0 <= i < |history| ==> history[i].ip in Addresses(result)
    ensures TotalRequests(result) == |history|
  {
    PermutedAddresses(stats, result);
    forall k | 0 <= k < |result| ensures Summarises(result[k], result[k].ip, history) {
      assert result[k] in multiset(stats);
    }
    forall i | 0 <= i < |history| ensures history[i].ip in Addresses(result) {
      assert history[i].ip in ipStats;
    }
    CountsSumToHistory(Addresses(result), history);
    TotalIsSumOfCounts(result, history);
  }

  ghost predicate Descending(s: seq<IPStats>) {
    forall i, j :: 0 <= i < j < |s| ==> s[i].requestCount >= s[j].requestCount
  }

  function Inserted(r: seq<IPStats>, x: IPStats): seq<IPStats> {
    if r != [] && r[0].requestCount >= x.requestCount then [r[0]] + Inserted(r[1..], x) else [x] + r
  }

  /** Stands for the library's sort, which may order equal counts in any way. */
  function SortedByCount(stats: seq<IPStats>): seq<IPStats> {
    if stats == [] then [] else Inserted(SortedByCount(stats[1..]), stats[0])
  }

  lemma {:induction false} InsertedPermutes(r: seq<IPStats>, x: IPStats)
    ensures multiset(Inserted(r, x)) == multiset(r) + multiset{x}
  {
    if r == [] || r[0].requestCount < x.requestCount {
    } else {
      InsertedPermutes(r[1..], x);
      assert r == [r[0]] + r[1..];
    }
  }

  lemma {:induction false} InsertedDescending(r: seq<IPStats>, x: IPStats)
    requires Descending(r)
    ensures Descending(Inserted(r, x))
  {
    if r == [] || r[0].requestCount < x.requestCount {
    } else {
      var t := Inserted(r[1..], x);
      InsertedDescending(r[1..], x);
      InsertedPermutes(r[1..], x);
      forall j | 0 <= j < |t| ensures r[0].requestCount >= t[j].requestCount {
        assert t[j] in multiset(t);
      }
    }
  }

  lemma {:induction false} SortedIsPermutation(stats: seq<IPStats>)
    ensures multiset(SortedByCount(stats)) == multiset(stats) && Descending(SortedByCount(stats))
  {
    if stats == [] {
    } else {
      SortedIsPermutation(stats[1..]);
      InsertedPermutes(SortedByCount(stats[1..]), stats[0]);
      InsertedDescending(SortedByCount(stats[1..]), stats[0]);
      assert stats == [stats[0]] + stats[1..];
    }
  }

  lemma CollectedSnoc(stats: seq<IPStats>, m: map<string, IPStats>, s: IPStats)
    requires Collected(stats, m) && s.ip !in m
    ensures Collected(stats + [s], m[s.ip := s])
  {
    AddressesSnoc(stats, s);
    assert forall k :: 0 <= k < |stats| ==> stats[k].ip == Addresses(stats)[k] && stats[k].ip in m;
  }

  lemma OneListed(result: seq<Entry>, e: Entry, rest: seq<Entry>)
    requires rest != [] && rest[0] == e
    ensures result + rest == result + [e] + rest[1..]
  {
  }

  lemma FirstOf(result: seq<Entry>, rest: seq<Entry>, n: nat)
    requires |result| == n || (|result| < n && rest == [])
    ensures First(result + rest, n) == result
  {
  }

  /** Listing two stretches of the log one after the other lists the newer one first. */
  lemma {:induction false} NewestFirstConcat(a: seq<Entry>, b: seq<Entry>, ipFilter: string)
    ensures NewestFirst(a + b, ipFilter) == NewestFirst(b, ipFilter) + NewestFirst(a, ipFilter)
  {
    if b == [] {
      assert a + b == a;
    } else {
      assert (a + b)[..|a + b| - 1] == a + b[..|b| - 1];
      NewestFirstConcat(a, b[..|b| - 1], ipFilter);
    }
  }

  /** One entry is listed if it has a time and, when an address is asked for, if it is of that address. */
  lemma NewestFirstOne(e: Entry, ipFilter: string)
    ensures NewestFirst([e], ipFilter) == if e.timestamp != 0 && (ipFilter != "" ==> e.ip == ipFilter) then [e] else []
  {
    assert [e][..0] == [];
  }

  lemma {:induction false} ListsExactly(entries: seq<Entry>, ipFilter: string, e: Entry)
    ensures e in NewestFirst(entries, ipFilter)
       <==> e in entries && e.timestamp != 0 && (ipFilter != "" ==> e.ip == ipFilter)
  {
    if entries == [] {
    } else {
      var init, last := entries[..|entries| - 1], entries[|entries| - 1];
      assert entries == init + [last];
      ListsExactly(init, ipFilter, e);
    }
  }

  /** A limit out of range, like none, stands for five hundred. */
  lemma LimitedTo<T>(s: seq<T>, limit: int)
    ensures var n := if 0 < limit <= 10000 then limit else 500;
      First(s, EffectiveLimit(limit)) == if |s| <= n then s else s[..n]
  {
  }

  lemma NewestFirstStep(kept: seq<Entry>, n: int, ipFilter: string)
    requires 0 < n <= |kept|
    ensures NewestFirst(kept[..n], ipFilter)
         == (if Listed(kept[n - 1], ipFilter) then [kept[n - 1]] else []) + NewestFirst(kept[..n - 1], ipFilter)
  {
    assert kept[..n][..n - 1] == kept[..n - 1];
  }

  function Bumped(ipStats: map<string, IPStats>, entry: Entry): IPStats {
    var before := if entry.ip in ipStats then ipStats[entry.ip]
                  else IPStats(entry.ip, 0, entry.timestamp, 0, "", "", 0);
    before.(requestCount := before.requestCount + 1, lastSeen := entry.timestamp,
            lastPath := entry.path, lastVerb := entry.verb, lastStatus := entry.statusCode)
  }

  /** The ring holds the latest entries of the history, newest at the slot before the head. */
  ghost predicate RingHolds(ring: seq<Entry>, head: int, history: seq<Entry>) {
    && |ring| == RING_SIZE
    && head == |history| % RING_SIZE
    && forall i :: 0 <= i < RING_SIZE && i < |history| ==> ring[Slot(head, i)] == history[|history| - 1 - i]
  }

  lemma RingAdvances(ring: seq<Entry>, ring': seq<Entry>, head: int, history: seq<Entry>, entry: Entry)
    requires RingHolds(ring, head, history) && ring' == ring[head := entry]
    ensures RingHolds(ring', (head + 1) % RING_SIZE, history + [entry])
  {
    var head' := (head + 1) % RING_SIZE;
    var history' := history + [entry];
    forall i | 0 <= i < RING_SIZE && i < |history'|
      ensures ring'[Slot(head', i)] == history'[|history'| - 1 - i]
    {
      if i == 0 {
        assert Slot(head', 0) == head;
      } else {
        assert Slot(head', i) == Slot(head, i - 1) != head;
        assert history'[|history'| - 1 - i] == history[|history| - 1 - (i - 1)];
      }
    }
  }

  lemma {:induction false} CountZero(history: seq<Entry>, ip: string)
    ensures CountOf(history, ip) == 0 <==> forall i :: 0 <= i < |history| ==> history[i].ip != ip
  {
    if history == [] {
    } else {
      CountZero(history[..|history| - 1], ip);
    }
  }

  lemma SummaryAdvances(ipStats: map<string, IPStats>, history: seq<Entry>, entry: Entry, ip: string)
    requires Aggregates(ipStats, history) && (ip in ipStats || ip == entry.ip)
    ensures Summarises(if ip == entry.ip then Bumped(ipStats, entry) else ipStats[ip], ip, history + [entry])
  {
    var history' := history + [entry];
    assert history'[..|history|] == history;
    assert history'[|history|] == entry;
    if ip in ipStats {
      var f :| IsFirstOf(history, f) && history[f].ip == ip && history[f].timestamp == ipStats[ip].firstSeen;
      assert IsFirstOf(history', f) && history'[f] == history[f];
    } else {
      CountZero(history, ip);
      assert IsFirstOf(history', |history|);
    }
    if ip == entry.ip {
      assert IsLastOf(history', |history|);
    } else {
      var l :| IsLastOf(history, l) && history[l].ip == ip && history[l].timestamp == ipStats[ip].lastSeen
               && history[l].path == ipStats[ip].lastPath && history[l].verb == ipStats[ip].lastVerb
               && history[l].statusCode == ipStats[ip].lastStatus;
      assert IsLastOf(history', l) && history'[l] == history[l];
    }
  }

  lemma AggregatesAdvance(ipStats: map<string, IPStats>, history: seq<Entry>, entry: Entry)
    requires Aggregates(ipStats, history)
    ensures Aggregates(ipStats[entry.ip := Bumped(ipStats, entry)], history + [entry])
  {
    var ipStats', history' := ipStats[entry.ip := Bumped(ipStats, entry)], history + [entry];
    assert history'[..|history|] == history;
    assert history'[|history|] == entry;
    forall ip ensures ip in ipStats' <==> exists i :: 0 <= i < |history'| && history'[i].ip == ip {
      if ip in ipStats {
        var i :| 0 <= i < |history| && history[i].ip == ip;
        assert history'[i].ip == ip;
      }
    }
    forall ip | ip in ipStats' ensures Summarises(ipStats'[ip], ip, history') {
      SummaryAdvances(ipStats, history, entry, ip);
    }
  }

  class Store {
    const entries: array<Entry>
    var head: nat
    var count: nat
    var ipStats: map<string, IPStats>
    ghost var history: seq<Entry>

    ghost predicate RingValid()
      reads this, entries
    {
      && entries.Length == RING_SIZE
      && count == |Latest(history, RING_SIZE)|
      && RingHolds(entries[..], head, history)
    }

    ghost predicate Valid()
      reads this, entries
    {
      RingValid() && Aggregates(ipStats, history)
    }

    constructor ()
      ensures Valid() && history == [] && fresh(entries)
    {
      entries := new Entry[RING_SIZE](_ => Entry("", "", "", 0, 0, "", 0));
      head, count := 0, 0;
      ipStats := map[];
      history := [];
    }

    method WriteRing(entry: Entry)
      requires entries.Length == RING_SIZE && head < RING_SIZE && count <= RING_SIZE
      modifies this`head, this`count, entries
      ensures head == (old(head) + 1) % RING_SIZE
      ensures count == if old(count) < RING_SIZE then old(count) + 1 else RING_SIZE
      ensures entries[..] == old(entries[..])[old(head) := entry]
    {
      entries[head] := entry;
      head := (head + 1) % RING_SIZE;
      if count < RING_SIZE {
        count := count + 1;
      }
    }

    method UpdateStats(entry: Entry)
      modifies this`ipStats
      ensures ipStats == old(ipStats)[entry.ip := Bumped(old(ipStats), entry)]
    {
      var stats;
      if entry.ip in ipStats {
        stats := ipStats[entry.ip];
      } else {
        stats := IPStats(entry.ip, 0, entry.timestamp, 0, "", "", 0);
        ipStats := ipStats[entry.ip := stats];
      }
      stats := stats.(requestCount := stats.requestCount + 1);
      stats := stats.(lastSeen := entry.timestamp, lastPath := entry.path,
                      lastVerb := entry.verb, lastStatus := entry.statusCode);
      ipStats := ipStats[entry.ip := stats];
    }

    method Record(entry: Entry)
      requires Valid()
      modifies this, entries
      ensures Valid() && history == old(history) + [entry]
    {
      WriteRing(entry);
      UpdateStats(entry);
      RingAdvances(old(entries[..]), entries[..], old(head), old(history), entry);
      AggregatesAdvance(old(ipStats), old(history), entry);
      history := history + [entry];
    }

    /** The entry `i` steps older than the newest. */
    method ReadBack(i: nat) returns (entry: Entry)
      requires RingValid() && i < count
      ensures entry == Latest(history, RING_SIZE)[count - 1 - i]
    {
      entry := entries[Slot(head, i)];
    }

    /** The newest entries first, at most `limit` of them, optionally of one address. */
    method GetEntries(limit: int, ipFilter: string) returns (result: seq<Entry>)
      requires RingValid()
      ensures result == First(NewestFirst(Latest(history, RING_SIZE), ipFilter), EffectiveLimit(limit))
    {
      var n := limit;
      if n <= 0 || n > RING_SIZE {
        n := 500;
      }
      result := [];
      var i := 0;
      ghost var kept := Latest(history, RING_SIZE);
      ghost var rest := NewestFirst(kept, ipFilter);
      assert kept[..count] == kept;
      while i < count && |result| < n
        invariant 0 <= i <= count && |result| <= n
        invariant rest == NewestFirst(kept[..count - i], ipFilter)
        invariant NewestFirst(kept, ipFilter) == result + rest
        decreases count - i
      {
        var entry := ReadBack(i);
        NewestFirstStep(kept, count - i, ipFilter);
        i := i + 1;
        assert rest == (if Listed(entry, ipFilter) then [entry] else []) + NewestFirst(kept[..count - i], ipFilter);
        if entry.timestamp == 0 {
          continue;
        }
        if ipFilter != "" && entry.ip != ipFilter {
          continue;
        }
        OneListed(result, entry, rest);
        rest := rest[1..];
        result := result + [entry];
      }
      FirstOf(result, rest, n);
    }

    method CollectStats() returns (stats: seq<IPStats>)
      requires forall ip :: ip in ipStats ==> ipStats[ip].ip == ip
      ensures Collected(stats, ipStats)
    {
      stats := [];
      var todo := ipStats.Keys;
      while todo != {}
        invariant todo <= ipStats.Keys
        invariant Collected(stats, ipStats - todo)
        decreases todo
      {
        var ip :| ip in todo;
        CollectedSnoc(stats, ipStats - todo, ipStats[ip]);
        assert (ipStats - todo)[ip := ipStats[ip]] == ipStats - (todo - {ip});
        todo := todo - {ip};
        stats := stats + [ipStats[ip]];
      }
    }

    /** The statistics of every address seen, busiest first. */
    method GetUniqueIPs() returns (result: seq<IPStats>)
      requires Valid()
      ensures Descending(result)
      ensures Distinct(Addresses(result))
      ensures forall k :: 0 <= k < |result| ==> Summarises(result[k], result[k].ip, history)
      ensures forall i :: 0 <= i < |history| ==> history[i].ip in Addresses(result)
      ensures TotalRequests(result) == |history|
    {
      var stats := CollectStats();
      result := SortedByCount(stats);
      SortedIsPermutation(stats);
      ReportIsComplete(stats, result, ipStats, history);
    }
  }

  lemma {:induction false} CountOfConcat(a: seq<Entry>, b: seq<Entry>, ip: string)
    ensures CountOf(a + b, ip) == CountOf(a, ip) + CountOf(b, ip)
  {
    if b == [] {
      assert a + b == a;
    } else {
      assert (a + b)[..|a + b| - 1] == a + b[..|b| - 1];
      CountOfConcat(a, b[..|b| - 1], ip);
    }
  }

  /**
   * The ring never retains more entries of an address than were counted, and as many exactly when
   * none of the entries that fell out of it were of that address: always, until it first wraps.
   */
  lemma RetainedVersusCounted(history: seq<Entry>, ip: string)
    ensures CountOf(Latest(history, RING_SIZE), ip) <= CountOf(history, ip)
    ensures CountOf(Latest(history, RING_SIZE), ip) == CountOf(history, ip)
       <==> forall i :: 0 <= i < |history| - RING_SIZE ==> history[i].ip != ip
  {
    if |history| > RING_SIZE {
      var cut := |history| - RING_SIZE;
      assert history == history[..cut] + history[cut..];
      CountOfConcat(history[..cut], history[cut..], ip);
      CountZero(history[..cut], ip);
      assert forall i :: 0 <= i < cut ==> history[..cut][i] == history[i];
    }
  }
}
