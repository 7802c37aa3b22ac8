// Run ids, the order key read back from a log's name, and pruning by it.
module RunLogs {
  import opened Basics
  import opened Decimal
  import opened Sorting

  const MAX_SCANNED_ENTRIES := 4096

  // `mint_run_id`
  function MintRunId(secs: nat, nanos: nat, sequence: nat): string {
    "run-" + Digits(secs) + "-" + Pad(nanos, 9) + "-" + Digits(sequence)
  }

  function LogName(secs: nat, nanos: nat, sequence: nat): string {
    MintRunId(secs, nanos, sequence) + ".jsonl"
  }

  function StripPrefix(s: string, prefix: string): Option<string> {
    if prefix <= s then Some(s[|prefix|..]) else None
  }

  type Key = (nat, nat, nat)

  // `run_order_key`
  function RunOrderKey(fileName: string): Option<Key> {
    match StripSuffix(fileName, ".jsonl")
    case None => None
    case Some(named) =>
      match StripPrefix(named, "run-")
      case None => None
      case Some(stem) => StemKey(stem)
  }

  // The third part keeps any further dash.
  function StemKey(stem: string): Option<Key> {
    var i := DashAt(stem);
    if i == |stem| then None
    else
      var rest := stem[i + 1..];
      var j := DashAt(rest);
      if j == |rest| then None
      else
        match (ParseU64(stem[..i]), ParseU64(rest[..j]), ParseU64(rest[j + 1..]))
        case (Some(seconds), Some(nanoseconds), Some(sequence)) => Some((seconds, nanoseconds, sequence))
        case _ => None
  }

  // What a log's name holds between its prefix and its suffix.
  lemma StemOfLog(stem: string)
    ensures StripSuffix("run-" + stem + ".jsonl", ".jsonl") == Some("run-" + stem)
    ensures StripPrefix("run-" + stem, "run-") == Some(stem)
  {
    var run := "run-" + stem;
    var name := run + ".jsonl";
    assert name[..|name| - 6] == run && name[|name| - 6..] == ".jsonl";
    assert run[4..] == stem;
  }

  lemma StemSplits(a: string, b: string, c: string)
    requires '-' !in a && '-' !in b
    ensures var stem, rest := a + "-" + (b + "-" + c), b + "-" + c;
            && DashAt(stem) == |a| < |stem| && stem[..|a|] == a && stem[|a| + 1..] == rest
            && DashAt(rest) == |b| < |rest| && rest[..|b|] == b && rest[|b| + 1..] == c
  {
    DashAfter(a, b + "-" + c);
    DashAfter(b, c);
  }

  // The key of a minted name is the numbers it was minted from.
  lemma KeyInvertsMint(secs: nat, nanos: nat, sequence: nat)
    requires secs < U64_END && nanos < U64_END && sequence < U64_END
    ensures RunOrderKey(LogName(secs, nanos, sequence)) == Some((secs, nanos, sequence))
  {
    hide Pad, Digits, ParseU64, DashAt, StripSuffix, StripPrefix;
    var a, b, c := Digits(secs), Pad(nanos, 9), Digits(sequence);
    var stem := a + "-" + (b + "-" + c);
    assert MintRunId(secs, nanos, sequence) == "run-" + stem;
    StemOfLog(stem);
    StemSplits(a, b, c);
    ParseOfDigits(secs);
    ParseOfPad(nanos, 9);
    ParseOfDigits(sequence);
  }

  lemma ParseOfDigits(n: nat)
    requires n < U64_END
    ensures ParseU64(Digits(n)) == Some(n)
  {
    ValueOfDigits(n);
    assert IsDigit(Digits(n)[0]);
  }

  // `+` may stand before the digits.
  predicate Spells(s: string, n: nat) {
    var digits := if s != [] && s[0] == '+' then s[1..] else s;
    n < 0x1_0000_0000_0000_0000 && digits != [] && AllDigits(digits) && Value(digits) == n
  }

  // Three 64-bit numbers between dashes, the first two without one in them.
  predicate IsLogOf(name: string, key: Key, a: string, b: string, c: string) {
    && name == "run-" + (a + "-" + (b + "-" + c)) + ".jsonl" && '-' !in a && '-' !in b
    && Spells(a, key.0) && Spells(b, key.1) && Spells(c, key.2)
  }

  lemma NameSplits(name: string) returns (stem: string)
    requires RunOrderKey(name).Some?
    ensures name == "run-" + stem + ".jsonl" && RunOrderKey(name) == StemKey(stem)
  {
    hide StemKey;
    var named := name[..|name| - 6];
    stem := named[4..];
    assert named == "run-" + stem && name == named + ".jsonl";
  }

  lemma CutAt(s: string, i: nat)
    requires i < |s|
    ensures s == s[..i] + [s[i]] + s[i + 1..]
  {
  }

  lemma NoneBefore(s: string, i: nat, c: char)
    requires i <= |s| && forall k :: 0 <= k < i ==> s[k] != c
    ensures c !in s[..i]
  {
  }

  lemma DashSplits(s: string)
    requires DashAt(s) < |s|
    ensures s == s[..DashAt(s)] + "-" + s[DashAt(s) + 1..] && '-' !in s[..DashAt(s)]
  {
    hide DashAt;
    CutAt(s, DashAt(s));
    NoneBefore(s, DashAt(s), '-');
  }

  lemma ParsedSpells(s: string)
    requires ParseU64(s).Some?
    ensures Spells(s, ParseU64(s).value)
  {
  }

  lemma StemKeySplits(stem: string, key: Key) returns (a: string, b: string, c: string)
    requires StemKey(stem) == Some(key)
    ensures stem == a + "-" + (b + "-" + c) && '-' !in a && '-' !in b
    ensures Spells(a, key.0) && Spells(b, key.1) && Spells(c, key.2)
  {
    hide DashAt, ParseU64, Spells;
    var i := DashAt(stem);
    var rest := stem[i + 1..];
    var j := DashAt(rest);
    a, b, c := stem[..i], rest[..j], rest[j + 1..];
    DashSplits(stem);
    DashSplits(rest);
    ParsedSpells(a);
    ParsedSpells(b);
    ParsedSpells(c);
  }

  lemma KeySplits(name: string, key: Key) returns (a: string, b: string, c: string)
    requires RunOrderKey(name) == Some(key)
    ensures IsLogOf(name, key, a, b, c)
  {
    hide RunOrderKey, StemKey, Spells;
    var stem := NameSplits(name);
    a, b, c := StemKeySplits(stem, key);
  }

  lemma KeyOfSplit(name: string, key: Key, a: string, b: string, c: string)
    requires IsLogOf(name, key, a, b, c)
    ensures RunOrderKey(name) == Some(key)
  {
    hide DashAt, Value, StripSuffix, StripPrefix;
    StemOfLog(a + "-" + (b + "-" + c));
    StemSplits(a, b, c);
  }

  // Which names are logs, and in which place.
  lemma KeyIff(name: string, key: Key)
    ensures RunOrderKey(name) == Some(key) <==> exists a, b, c :: IsLogOf(name, key, a, b, c)
  {
    hide RunOrderKey, IsLogOf;
    if RunOrderKey(name) == Some(key) {
      var a, b, c := KeySplits(name, key);
    }
    if a, b, c :| IsLogOf(name, key, a, b, c) {
      KeyOfSplit(name, key, a, b, c);
    }
  }

  predicate KeyLess(a: Key, b: Key) {
    a.0 < b.0 || (a.0 == b.0 && (a.1 < b.1 || (a.1 == b.1 && a.2 < b.2)))
  }

  // Two minted names sort by when they were minted, whatever their digits.
  lemma MintedNamesInOrder(secs: nat, nanos: nat, sequence: nat, secs': nat, nanos': nat, sequence': nat)
    requires secs < U64_END && nanos < U64_END && sequence < U64_END
    requires secs' < U64_END && nanos' < U64_END && sequence' < U64_END
    ensures var key, key' := RunOrderKey(LogName(secs, nanos, sequence)),
                         RunOrderKey(LogName(secs', nanos', sequence'));
            && key.Some? && key'.Some?
            && (KeyLess(key.value, key'.value) <==>
                  secs < secs' || (secs == secs' && (nanos < nanos' || (nanos == nanos' && sequence < sequence'))))
            && (LogName(secs, nanos, sequence) == LogName(secs', nanos', sequence')
                ==> (secs, nanos, sequence) == (secs', nanos', sequence'))
  {
    KeyInvertsMint(secs, nanos, sequence);
    KeyInvertsMint(secs', nanos', sequence');
  }

  // ---- Pruning ----

  datatype Log = Log(key: Key, name: string)

  datatype PruneReport = PruneReport(scanned: nat, deleted: nat, failed: nat)

  function LogLe(): (Log, Log) -> bool {
    (a: Log, b: Log) => KeyLess(a.key, b.key) || (a.key == b.key && !Before(Codes(b.name), Codes(a.name)))
  }

  lemma LogLeIsPreorder()
    ensures TotalPreorder(LogLe())
  {
    forall x: Log, y: Log
      ensures LogLe()(x, y) || LogLe()(y, x)
    {
      BeforeTrichotomy(Codes(x.name), Codes(y.name));
    }
    forall x: Log, y: Log, z: Log | LogLe()(x, y) && LogLe()(y, z)
      ensures LogLe()(x, z)
    {
      NotBeforeTransitive(Codes(x.name), Codes(y.name), Codes(z.name));
    }
  }

  // The logs among the entries: a name that is not text or does not parse is
  // none.
  function LogsOf(entries: seq<Option<string>>): seq<Log> {
    if entries == [] then []
    else
      var last := entries[|entries| - 1];
      LogsOf(entries[..|entries| - 1])
      + if last.Some? && RunOrderKey(last.value).Some? then [Log(RunOrderKey(last.value).value, last.value)] else []
  }

  function Excess(logs: nat, keep: nat): nat {
    if logs > keep then logs - keep else 0
  }

  // What a prune asks to delete, in order.
  function Attempts(entries: seq<Option<string>>, keep: nat): (attempts: seq<Log>)
    ensures |attempts| == Excess(|LogsOf(entries)|, keep)
  {
    SortPermutes(LogsOf(entries), LogLe());
    Sort(LogsOf(entries), LogLe())[..Excess(|LogsOf(entries)|, keep)]
  }

  function Taken(listing: seq<Option<string>>): seq<Option<string>> {
    if |listing| > MAX_SCANNED_ENTRIES then listing[..MAX_SCANNED_ENTRIES] else listing
  }

  function NamesOf(logs: seq<Log>): set<string> {
    set i | 0 <= i < |logs| :: logs[i].name
  }

  function CountIf(logs: seq<Log>, busy: set<string>): nat {
    if logs == [] then 0 else CountIf(logs[..|logs| - 1], busy) + if logs[|logs| - 1].name in busy then 1 else 0
  }

  method CollectLogs(entries: seq<Option<string>>) returns (logs: seq<Log>)
    ensures logs == LogsOf(entries)
  {
    hide RunOrderKey;
    logs := [];
    var i := 0;
    while i < |entries|
      invariant 0 <= i <= |entries| && logs == LogsOf(entries[..i])
    {
      assert entries[..i + 1][..i] == entries[..i];
      if entries[i].Some? {
        var key := RunOrderKey(entries[i].value);
        if key.Some? {
          logs := logs + [Log(key.value, entries[i].value)];
        }
      }
      i := i + 1;
    }
    assert entries[..|entries|] == entries;
  }

  class LogDirectory {
    var files: set<string>

    method DeleteAll(attempts: seq<Log>, busy: set<string>) returns (deleted: nat, failed: nat)
      modifies this
      ensures files == old(files) - (NamesOf(attempts) - busy)
      ensures failed == CountIf(attempts, busy) && deleted + failed == |attempts|
    {
      deleted, failed := 0, 0;
      var i := 0;
      while i < |attempts|
        invariant 0 <= i <= |attempts|
        invariant files == old(files) - (NamesOf(attempts[..i]) - busy)
        invariant failed == CountIf(attempts[..i], busy) && deleted + failed == i
      {
        var name := attempts[i].name;
        assert attempts[..i + 1][..i] == attempts[..i];
        NamesOfNext(attempts, i);
        if name in busy {
          failed := failed + 1;
        } else {
          files := files - {name};
          deleted := deleted + 1;
        }
        i := i + 1;
      }
      assert attempts[..|attempts|] == attempts;
    }

    // `prune`: `listing` is the directory's entries in the order read, None for
    // one that cannot be read or named; a file in `busy` cannot be removed.
    method Prune(listing: seq<Option<string>>, keep: nat, busy: set<string>) returns (report: PruneReport)
      modifies this
      // Only the first 4096 entries are looked at.
      ensures var seen := if |listing| <= 4096 then listing else listing[..4096];
              var attempts := Attempts(seen, keep);
              && files == old(files) - (NamesOf(attempts) - busy)
              && report.scanned == |LogsOf(seen)|
              && report.failed == CountIf(attempts, busy)
              && report.deleted + report.failed == |attempts|
    {
      var logs := CollectLogs(Taken(listing));
      SortPermutes(logs, LogLe());
      var sorted := Sort(logs, LogLe());
      var deleted, failed := DeleteAll(sorted[..Excess(|logs|, keep)], busy);
      return PruneReport(|logs|, deleted, failed);
    }
  }

  lemma NamesOfNext(logs: seq<Log>, i: nat)
    requires i < |logs|
    ensures NamesOf(logs[..i + 1]) == NamesOf(logs[..i]) + {logs[i].name}
  {
    var some, more := logs[..i], logs[..i + 1];
    forall n | n in NamesOf(more)
      ensures n in NamesOf(some) + {logs[i].name}
    {
      var k :| 0 <= k < |more| && more[k].name == n;
      if k < i {
        assert some[k].name == n;
      }
    }
    forall n | n in NamesOf(some) + {logs[i].name}
      ensures n in NamesOf(more)
    {
      if n in NamesOf(some) {
        var k :| 0 <= k < |some| && some[k].name == n;
        assert more[k].name == n;
      } else {
        assert more[i].name == n;
      }
    }
  }

  // By seconds, then nanoseconds, then sequence.
  predicate IsOlder(a: Key, b: Key) {
    a.0 < b.0 || (a.0 == b.0 && (a.1 < b.1 || (a.1 == b.1 && a.2 < b.2)))
  }

  // What is asked for is the oldest logs and nothing else: every one is among
  // the logs seen, the rest of them are kept, as many as `keep` if there are that many,
  // and none kept is older.
  lemma AttemptsAreOldest(entries: seq<Option<string>>, keep: nat)
    ensures var sorted, attempts := Sort(LogsOf(entries), LogLe()), Attempts(entries, keep);
            && multiset(sorted) == multiset(LogsOf(entries))
            && attempts <= sorted
            && |sorted| - |attempts| == (if |sorted| <= keep then |sorted| else keep)
            && (forall i, j :: 0 <= i < |attempts| <= j < |sorted| ==> !IsOlder(sorted[j].key, attempts[i].key))
            && forall i, j :: 0 <= i < j < |attempts| ==> !IsOlder(attempts[j].key, attempts[i].key)
  {
    hide RunOrderKey, LogsOf, Before;
    var sorted := Sort(LogsOf(entries), LogLe());
    SortPermutes(LogsOf(entries), LogLe());
    LogLeIsPreorder();
    SortSorts(LogsOf(entries), LogLe());
    forall i, j | 0 <= i < j < |sorted|
      ensures !IsOlder(sorted[j].key, sorted[i].key)
    {
      assert LogLe()(sorted[i], sorted[j]);
    }
  }

  // Over names that differ, as a directory's do, the counts of a prune are the files it
  // could not remove and the files it did.
  lemma {:induction false} CountsFiles(logs: seq<Log>, busy: set<string>)
    requires forall i, j :: 0 <= i < j < |logs| ==> logs[i].name != logs[j].name
    ensures CountIf(logs, busy) == |NamesOf(logs) * busy| && |logs| - CountIf(logs, busy) == |NamesOf(logs) - busy|
  {
    hide NamesOf;
    if logs == [] {
      NoNames();
    } else {
      var n := |logs| - 1;
      var front, name := logs[..n], logs[n].name;
      CountsFiles(front, busy);
      NamesOfNext(logs, n);
      assert logs[..n + 1] == logs;
      NameIsNew(logs);
      OneMore(NamesOf(front), busy, name);
    }
  }

  lemma NoNames()
    ensures NamesOf([]) == {}
  {
  }

  lemma NameIsNew(logs: seq<Log>)
    requires logs != [] && forall i, j :: 0 <= i < j < |logs| ==> logs[i].name != logs[j].name
    ensures logs[|logs| - 1].name !in NamesOf(logs[..|logs| - 1])
  {
  }

  lemma OneMore(names: set<string>, busy: set<string>, name: string)
    requires name !in names
    ensures |(names + {name}) * busy| == |names * busy| + if name in busy then 1 else 0
    ensures |(names + {name}) - busy| == |names - busy| + if name in busy then 0 else 1
  {
    if name in busy {
      assert (names + {name}) * busy == names * busy + {name} && (names + {name}) - busy == names - busy;
    } else {
      assert (names + {name}) * busy == names * busy && (names + {name}) - busy == names - busy + {name};
    }
  }

  lemma {:induction false} LogsParse(entries: seq<Option<string>>, log: Log)
    ensures log in LogsOf(entries) <==> Some(log.name) in entries && RunOrderKey(log.name) == Some(log.key)
  {
    hide RunOrderKey;
    if entries != [] {
      var front, last := entries[..|entries| - 1], entries[|entries| - 1];
      LogsParse(front, log);
      assert entries == front + [last];
    }
  }

  // No file whose name does not parse is ever asked for.
  lemma NeverAForeignName(entries: seq<Option<string>>, keep: nat, name: string)
    ensures name in NamesOf(Attempts(entries, keep)) ==> RunOrderKey(name).Some? && Some(name) in entries
  {
    var attempts := Attempts(entries, keep);
    AttemptsAreOldest(entries, keep);
    if name in NamesOf(attempts) {
      var i :| 0 <= i < |attempts| && attempts[i].name == name;
      assert attempts[i] in multiset(Sort(LogsOf(entries), LogLe()));
      assert attempts[i] in LogsOf(entries);
      LogsParse(entries, attempts[i]);
    }
  }
}
