// Listing the apply records: what one pass over the directory returns.
module ApplyListing {
  import opened Basics
  import opened Decimal
  import opened Sorting
  import opened ApplyRecordNames
  import opened ApplyRecords
  import ApplyRecordStore
  import Utf8

  datatype ListError = Unreadable | Corrupt

  // A name, or the bytes of one that is not text.
  datatype EntryName = Text(text: string) | Raw(bytes: Bytes)

  // One directory entry: its name, and its content unless that cannot be read
  // as text.
  datatype Entry = Entry(name: EntryName, content: Option<Bytes>)

  datatype Stored = Stored(id: string, record: ApplyRecord)

  datatype Verdict = Skip | Keep(stored: Stored) | Bad(error: ListError)

  const EXTENSION: string := ".json"

  // The extension after a stem that is not text.
  predicate StemIsNoText(bytes: Bytes) {
    var stem := |bytes| - 5;
    stem > 0 && bytes[stem..] == [46, 106, 115, 111, 110] && Utf8.Decode(bytes[..stem]).None?
  }

  // What the loop does with one entry; `None` is an entry the system could not
  // produce.
  function Judge(decode: Bytes -> Option<ApplyRecord>, entry: Option<Entry>): Verdict {
    if entry.None? then Bad(Unreadable)
    else if entry.value.name.Raw? then
      if StemIsNoText(entry.value.name.bytes) then Bad(Corrupt) else Skip
    else
      var stem := StripSuffix(entry.value.name.text, EXTENSION);
      if stem.None? || stem.value == "" then Skip
      else if entry.value.content.None? then Bad(Unreadable)
      else if entry.value.content.value == [] then Skip
      else
        var record := decode(entry.value.content.value);
        var parsed := ParseRecordName(stem.value);
        if record.None? || parsed.None? then Bad(Corrupt)
        else if parsed.value.plan != record.value.plan || parsed.value.takenAt != record.value.takenAt then Bad(Corrupt)
        else Keep(Stored(stem.value, record.value))
  }

  // The records of a pass that meets no bad entry; else the first one's error.
  function Judged(decode: Bytes -> Option<ApplyRecord>, entries: seq<Option<Entry>>): Result<seq<Stored>, ListError> {
    if entries == [] then Ok([])
    else
      var front := Judged(decode, entries[..|entries| - 1]);
      match (front, Judge(decode, entries[|entries| - 1]))
      case (Err(_), _) => front
      case (Ok(kept), Skip) => front
      case (Ok(kept), Keep(stored)) => Ok(kept + [stored])
      case (Ok(kept), Bad(error)) => Err(error)
  }

  // Newest first, then by name from the last to the first.
  function NewestFirst(): (Stored, Stored) -> bool {
    (a: Stored, b: Stored) =>
      b.record.takenAt < a.record.takenAt
      || (a.record.takenAt == b.record.takenAt && !Before(Codes(a.id), Codes(b.id)))
  }

  function Listed(decode: Bytes -> Option<ApplyRecord>, entries: seq<Option<Entry>>): Result<seq<Stored>, ListError> {
    match Judged(decode, entries)
    case Ok(kept) => Ok(Sort(kept, NewestFirst()))
    case Err(error) => Err(error)
  }

  method List(decode: Bytes -> Option<ApplyRecord>,
              entries: seq<Option<Entry>>) returns (r: Result<seq<Stored>, ListError>)
    ensures r == Listed(decode, entries)
  {
    hide Judge;
    var records := [];
    for i := 0 to |entries|
      invariant Judged(decode, entries[..i]) == Ok(records)
    {
      assert entries[..i + 1][..i] == entries[..i];
      match Judge(decode, entries[i])
      case Skip =>
      case Keep(stored) => records := records + [stored];
      case Bad(error) =>
        FirstErrorStands(decode, entries, i + 1);
        return Err(error);
    }
    assert entries[..|entries|] == entries;
    r := Ok(Sort(records, NewestFirst()));
  }

  lemma {:induction false} FirstErrorStands(decode: Bytes -> Option<ApplyRecord>, entries: seq<Option<Entry>>, n: nat)
    requires n <= |entries| && Judged(decode, entries[..n]).Err?
    ensures Judged(decode, entries) == Judged(decode, entries[..n])
    decreases |entries|
  {
    if n == |entries| {
      assert entries[..n] == entries;
    } else {
      assert entries[..|entries| - 1][..n] == entries[..n];
      FirstErrorStands(decode, entries[..|entries| - 1], n);
    }
  }

  lemma NewestFirstIsPreorder()
    ensures TotalPreorder(NewestFirst())
  {
    forall x: Stored, y: Stored
      ensures NewestFirst()(x, y) || NewestFirst()(y, x)
    {
      BeforeTrichotomy(Codes(x.id), Codes(y.id));
    }
    forall x: Stored, y: Stored, z: Stored | NewestFirst()(x, y) && NewestFirst()(y, z)
      ensures NewestFirst()(x, z)
    {
      NotBeforeTransitive(Codes(z.id), Codes(y.id), Codes(x.id));
    }
  }

  predicate KeptAt(decode: Bytes -> Option<ApplyRecord>, entries: seq<Option<Entry>>, i: int, x: Stored) {
    0 <= i < |entries| && Judge(decode, entries[i]) == Keep(x)
  }

  ghost predicate IsKept(decode: Bytes -> Option<ApplyRecord>, entries: seq<Option<Entry>>, x: Stored) {
    exists i :: KeptAt(decode, entries, i, x)
  }

  predicate NoneBad(decode: Bytes -> Option<ApplyRecord>, entries: seq<Option<Entry>>) {
    forall i :: 0 <= i < |entries| ==> !Judge(decode, entries[i]).Bad?
  }

  // The pass succeeds exactly when no entry is bad.
  lemma {:induction false} JudgedSucceedsIff(decode: Bytes -> Option<ApplyRecord>, entries: seq<Option<Entry>>)
    ensures Judged(decode, entries).Ok? <==> NoneBad(decode, entries)
  {
    hide Judge;
    if entries != [] {
      JudgedSucceedsIff(decode, entries[..|entries| - 1]);
      assert entries == entries[..|entries| - 1] + [entries[|entries| - 1]];
    }
  }

  // It keeps exactly the entries that are records.
  lemma {:induction false} JudgedKeepsIff(decode: Bytes -> Option<ApplyRecord>, entries: seq<Option<Entry>>, x: Stored)
    requires Judged(decode, entries).Ok?
    ensures x in Judged(decode, entries).value <==> IsKept(decode, entries, x)
  {
    hide Judge;
    if entries != [] {
      var n := |entries| - 1;
      JudgedKeepsIff(decode, entries[..n], x);
      assert forall i :: KeptAt(decode, entries[..n], i, x) ==> KeptAt(decode, entries, i, x);
      assert forall i :: i != n && KeptAt(decode, entries, i, x) ==> KeptAt(decode, entries[..n], i, x);
      assert KeptAt(decode, entries, n, x) <==> Judge(decode, entries[n]) == Keep(x);
      hide KeptAt;
    }
  }

  // With entries that keep distinct records, each is kept once.
  lemma {:induction false} JudgedKeepsOnce(decode: Bytes -> Option<ApplyRecord>, entries: seq<Option<Entry>>)
    requires Judged(decode, entries).Ok?
    requires forall i, j, x :: i < j && KeptAt(decode, entries, i, x) ==> !KeptAt(decode, entries, j, x)
    ensures forall x :: multiset(Judged(decode, entries).value)[x] <= 1
  {
    hide Judge;
    if entries != [] {
      var n := |entries| - 1;
      assert forall i, x :: KeptAt(decode, entries[..n], i, x) ==> KeptAt(decode, entries, i, x);
      JudgedKeepsOnce(decode, entries[..n]);
      var last := Judge(decode, entries[n]);
      if last.Keep? {
        assert KeptAt(decode, entries, n, last.stored);
        JudgedKeepsIff(decode, entries[..n], last.stored);
        assert last.stored !in Judged(decode, entries[..n]).value;
      }
    }
  }

  // A listing that succeeds is the kept records, each as often as kept, newest
  // first.
  lemma ListedIsExact(decode: Bytes -> Option<ApplyRecord>, entries: seq<Option<Entry>>)
    ensures Listed(decode, entries).Ok? <==> NoneBad(decode, entries)
    ensures var r := Listed(decode, entries);
            r.Ok? ==> && Sorted(r.value, NewestFirst())
                      && multiset(r.value) == multiset(Judged(decode, entries).value)
                      && forall x :: x in r.value <==> IsKept(decode, entries, x)
  {
    JudgedSucceedsIff(decode, entries);
    hide Judge, NoneBad, IsKept, NewestFirst;
    if Judged(decode, entries).Ok? {
      var kept := Judged(decode, entries).value;
      NewestFirstIsPreorder();
      SortSorts(kept, NewestFirst());
      SortPermutes(kept, NewestFirst());
      var r := Listed(decode, entries).value;
      forall x
        ensures x in r <==> IsKept(decode, entries, x)
      {
        assert x in multiset(r) <==> x in multiset(kept);
        JudgedKeepsIff(decode, entries, x);
      }
    }
  }

  // ---- What is wrong with a file --------------------------------------------------

  // `.json` after a stem.
  predicate IsRecordFile(name: string) {
    |name| > 5 && name[|name| - 5..] == ".json"
  }

  // The name a record of that plan and instant is stored under, at some attempt.
  ghost predicate IsNameOf(stem: string, record: ApplyRecord) {
    && IsPlanText(record.plan) && 0 <= record.takenAt < Pow10(20)
    && exists k :: 0 <= k < 10_000 && stem == RecordName(record.plan, record.takenAt, k)
  }

  // An entry the system cannot produce is unreadable. Of those with a text name, what is
  // no record file and what is empty are passed over; one that cannot be read as text is
  // unreadable; one that does not decode, or decodes to a record of another name, is
  // corrupt; any other is kept, under its name.
  lemma VerdictMeans(decode: Bytes -> Option<ApplyRecord>, name: string, content: Option<Bytes>)
    ensures Judge(decode, None) == Bad(Unreadable)
    ensures var verdict := Judge(decode, Some(Entry(Text(name), content)));
            if !IsRecordFile(name) || content == Some([]) then verdict == Skip
            else if content.None? then verdict == Bad(Unreadable)
            else
              var stem, record := name[..|name| - 5], decode(content.value);
              if record.Some? && IsNameOf(stem, record.value) then verdict == Keep(Stored(stem, record.value))
              else verdict == Bad(Corrupt)
  {
    hide ParseRecordName, RecordName, IsPlanText, Pow10;
    if IsRecordFile(name) && content.Some? && content.value != [] {
      var stem, record := name[..|name| - 5], decode(content.value);
      if record.Some? {
        NamedIff(stem, record.value);
      }
    }
  }

  lemma NamedIff(stem: string, record: ApplyRecord)
    ensures IsNameOf(stem, record) <==>
            && ParseRecordName(stem).Some?
            && ParseRecordName(stem).value.plan == record.plan && ParseRecordName(stem).value.takenAt == record.takenAt
  {
    hide ParseRecordName, RecordName, IsPlanText, Pow10;
    if k :| 0 <= k < 10_000 && IsPlanText(record.plan) && 0 <= record.takenAt < Pow10(20)
            && stem == RecordName(record.plan, record.takenAt, k) {
      ParsesIff(stem, Parsed(record.plan, record.takenAt, k));
    }
    if ParseRecordName(stem).Some? {
      ParsesIff(stem, ParseRecordName(stem).value);
    }
  }

  // A listing that fails does so for its first bad entry.
  lemma {:induction false} FailsForTheFirst(decode: Bytes -> Option<ApplyRecord>, entries: seq<Option<Entry>>)
    requires Listed(decode, entries).Err?
    ensures exists i :: 0 <= i < |entries| && Judge(decode, entries[i]) == Bad(Listed(decode, entries).error)
                        && forall k :: 0 <= k < i ==> !Judge(decode, entries[k]).Bad?
  {
    hide Judge;
    var n := |entries| - 1;
    var front := entries[..n];
    assert forall k :: 0 <= k < n ==> front[k] == entries[k];
    if Listed(decode, front).Err? {
      FailsForTheFirst(decode, front);
      var i :| 0 <= i < n && Judge(decode, front[i]) == Bad(Listed(decode, front).error)
               && forall k :: 0 <= k < i ==> !Judge(decode, front[k]).Bad?;
      assert Judge(decode, entries[i]) == Bad(Listed(decode, entries).error);
    } else {
      JudgedSucceedsIff(decode, front);
    }
  }

  // A listing is newest first; of one instant, the greater name first.
  lemma ListedIsNewestFirst(decode: Bytes -> Option<ApplyRecord>, entries: seq<Option<Entry>>, i: nat, j: nat)
    requires Listed(decode, entries).Ok? && i < j < |Listed(decode, entries).value|
    ensures var x, y := Listed(decode, entries).value[i], Listed(decode, entries).value[j];
            || x.record.takenAt > y.record.takenAt
            || (x.record.takenAt == y.record.takenAt && (x.id == y.id || Before(Codes(y.id), Codes(x.id))))
  {
    hide Listed;
    ListedIsExact(decode, entries);
    var r := Listed(decode, entries).value;
    assert NewestFirst()(r[i], r[j]);
    BeforeTrichotomy(Codes(r[i].id), Codes(r[j].id));
    CodesDecide(r[i].id, r[j].id);
  }

  // ---- One directory, read in any order -----------------------------------------

  function FileText(name: FileName): string
    requires !name.Foreign?
  {
    match name
    case Json(stem) => stem + EXTENSION
    case Part(w) => ".apply." + Digits(w) + ".part"
  }

  // A file as the loop meets it: its content is read as text.
  function FileEntry(name: FileName, bytes: Bytes): Option<Entry> {
    Some(Entry(if name.Foreign? then Raw(name.bytes) else Text(FileText(name)),
               if Utf8.Decode(bytes).Some? then Some(bytes) else None))
  }

  // A directory read: every file once, in any order.
  ghost predicate Reads(entries: seq<Option<Entry>>, files: map<FileName, Bytes>, order: seq<FileName>) {
    && |entries| == |order|
    && (forall name :: name in files <==> name in order)
    && (forall i, j :: 0 <= i < j < |order| ==> order[i] != order[j])
    && (forall i :: 0 <= i < |order| ==> order[i] in files && entries[i] == FileEntry(order[i], files[order[i]]))
  }

  // What one file says, whatever else is there.
  function FileVerdict(decode: Bytes -> Option<ApplyRecord>, files: map<FileName, Bytes>, name: FileName): Verdict
    requires name in files
  {
    Judge(decode, FileEntry(name, files[name]))
  }

  predicate FileKept(decode: Bytes -> Option<ApplyRecord>, files: map<FileName, Bytes>, x: Stored) {
    Json(x.id) in files && FileVerdict(decode, files, Json(x.id)) == Keep(x)
  }

  // Only a record file's name has the extension.
  lemma StemOfFile(name: FileName)
    requires !name.Foreign?
    ensures StripSuffix(FileText(name), EXTENSION) == if name.Json? then Some(name.stem) else None
  {
    var text := FileText(name);
    if name.Part? {
      assert text[|text| - 5..][1] == 'p';
    } else {
      assert text[|text| - 5..] == EXTENSION && text[..|text| - 5] == name.stem;
    }
  }

  lemma KeptUnderItsName(decode: Bytes -> Option<ApplyRecord>, files: map<FileName, Bytes>, entries: seq<Option<Entry>>,
                         order: seq<FileName>, i: int, x: Stored)
    requires Reads(entries, files, order) && KeptAt(decode, entries, i, x)
    ensures 0 <= i < |order| && order[i] == Json(x.id)
  {
    hide ParseRecordName;
    if !order[i].Foreign? {
      StemOfFile(order[i]);
    }
    hide FileText, StripSuffix;
  }

  lemma KeptIffFileKept(decode: Bytes -> Option<ApplyRecord>, files: map<FileName, Bytes>, entries: seq<Option<Entry>>,
                        order: seq<FileName>, x: Stored)
    requires Reads(entries, files, order)
    ensures IsKept(decode, entries, x) <==> FileKept(decode, files, x)
  {
    hide Judge, FileEntry;
    if i :| KeptAt(decode, entries, i, x) {
      KeptUnderItsName(decode, files, entries, order, i, x);
    }
    if FileKept(decode, files, x) {
      var i :| 0 <= i < |order| && order[i] == Json(x.id);
      assert KeptAt(decode, entries, i, x);
    }
  }

  // The listing of a directory succeeds exactly when none of its files is bad, and
  // is then the kept ones, each once, newest first.
  lemma DirectoryListed(decode: Bytes -> Option<ApplyRecord>, files: map<FileName, Bytes>, entries: seq<Option<Entry>>,
                        order: seq<FileName>)
    requires Reads(entries, files, order)
    ensures Listed(decode, entries).Ok? <==> forall name :: name in files ==> !FileVerdict(decode, files, name).Bad?
    ensures var r := Listed(decode, entries);
            r.Ok? ==> && Sorted(r.value, NewestFirst())
                      && (forall x :: x in r.value <==> FileKept(decode, files, x))
                      && (forall x :: multiset(r.value)[x] <= 1)
  {
    hide Judge, FileEntry, NewestFirst, Listed;
    ListedIsExact(decode, entries);
    if Listed(decode, entries).Ok? {
      forall name | name in files
        ensures !FileVerdict(decode, files, name).Bad?
      {
        var i :| 0 <= i < |order| && order[i] == name;
        assert !Judge(decode, entries[i]).Bad?;
      }
      KeptFilesListed(decode, files, entries, order);
    } else {
      var i :| 0 <= i < |entries| && Judge(decode, entries[i]).Bad?;
      assert FileVerdict(decode, files, order[i]).Bad?;
    }
  }

  lemma KeptFilesListed(decode: Bytes -> Option<ApplyRecord>, files: map<FileName, Bytes>, entries: seq<Option<Entry>>,
                        order: seq<FileName>)
    requires Reads(entries, files, order) && Listed(decode, entries).Ok?
    ensures var r := Listed(decode, entries).value;
            && (forall x :: x in r <==> FileKept(decode, files, x))
            && (forall x :: multiset(r)[x] <= 1)
  {
    ListedIsExact(decode, entries);
    forall x
      ensures IsKept(decode, entries, x) <==> FileKept(decode, files, x)
    {
      KeptIffFileKept(decode, files, entries, order, x);
    }
    forall i, j, x | i < j && KeptAt(decode, entries, i, x)
      ensures !KeptAt(decode, entries, j, x)
    {
      KeptUnderItsName(decode, files, entries, order, i, x);
      if KeptAt(decode, entries, j, x) {
        KeptUnderItsName(decode, files, entries, order, j, x);
      }
    }
    hide Judge, KeptAt, IsKept, FileKept, Reads, NoneBad;
    JudgedKeepsOnce(decode, entries);
  }

  // The order the system hands the files out in does not matter: any two reads of a
  // directory succeed or fail together, and list the same.
  lemma ListingIgnoresOrder(decode: Bytes -> Option<ApplyRecord>, files: map<FileName, Bytes>,
                            entries: seq<Option<Entry>>, order: seq<FileName>,
                            entries': seq<Option<Entry>>, order': seq<FileName>)
    requires Reads(entries, files, order) && Reads(entries', files, order')
    ensures Listed(decode, entries).Ok? <==> Listed(decode, entries').Ok?
    ensures Listed(decode, entries).Ok? ==> Listed(decode, entries) == Listed(decode, entries')
  {
    hide Judge, FileEntry, Listed, Reads, NewestFirst;
    DirectoryListed(decode, files, entries, order);
    DirectoryListed(decode, files, entries', order');
    if Listed(decode, entries).Ok? {
      var a, b := Listed(decode, entries).value, Listed(decode, entries').value;
      forall x
        ensures multiset(a)[x] == multiset(b)[x]
      {
        assert x in multiset(a) <==> x in a;
        assert x in multiset(b) <==> x in b;
      }
      assert multiset(a) == multiset(b);
      forall x, y | x in a && y in a && NewestFirst()(x, y) && NewestFirst()(y, x)
        ensures x == y
      {
        TiedAreOne(x, y);
      }
      SortedUnique(a, b, NewestFirst());
    }
  }

  lemma TiedAreOne(x: Stored, y: Stored)
    requires NewestFirst()(x, y) && NewestFirst()(y, x)
    ensures x.id == y.id
  {
    BeforeTrichotomy(Codes(x.id), Codes(y.id));
    CodesDecide(x.id, y.id);
  }

  // ---- Listing what the recorders left -----------------------------------------

  // What reading a record back gives: an instant before the epoch is the epoch.
  function ReadBack(record: ApplyRecord): ApplyRecord {
    record.(takenAt := Instant(record.takenAt))
  }

  ghost predicate Lawful(encode: ApplyRecord -> Bytes, decode: Bytes -> Option<ApplyRecord>) {
    forall r :: encode(r) != [] && Utf8.Decode(encode(r)).Some? && decode(encode(r)) == Some(ReadBack(r))
  }

  // Every completed record's instant fits its name.
  predicate AllFit(t: Store) {
    forall w :: w in t.recorders && t.recorders[w].published ==>
      Instant(t.recorders[w].record.takenAt) < Pow10(NANOS_WIDTH)
  }

  // The record a recorder completed, as a listing shows it.
  predicate Completed(t: Store, w: RecorderId, x: Stored) {
    w in t.recorders && t.recorders[w].published && t.recorders[w].id.Some?
    && x == Stored(t.recorders[w].id.value, ReadBack(t.recorders[w].record))
  }

  // What a listing makes of a file from before the recorders started.
  function PriorVerdict(decode: Bytes -> Option<ApplyRecord>, prior: map<string, Bytes>, id: string): Verdict
    requires id in prior
  {
    Judge(decode, FileEntry(Json(id), prior[id]))
  }

  // One file of the directory, judged: a temporary file and an unfinished
  // reservation are skipped, a completed record kept exactly when it fits, and a
  // file from before is what it was.
  lemma FileIsJudged(encode: ApplyRecord -> Bytes, decode: Bytes -> Option<ApplyRecord>, prior: map<string, Bytes>,
                     t: Store, name: FileName)
    requires Lawful(encode, decode) && Sound(encode, prior, t) && name in t.files
    ensures var verdict := FileVerdict(decode, t.files, name);
            match name
            case Part(_) => verdict == Skip
            case Foreign(bytes) => verdict == if StemIsNoText(bytes) then Bad(Corrupt) else Skip
            case Json(stem) =>
              if stem in prior then verdict == PriorVerdict(decode, prior, stem)
              else exists w :: Holds(t, w, stem)
                     && verdict == if !t.recorders[w].published then Skip
                                   else if Instant(t.recorders[w].record.takenAt) < Pow10(NANOS_WIDTH)
                                   then Keep(Stored(stem, ReadBack(t.recorders[w].record)))
                                   else Bad(Corrupt)
  {
    hide Judge;
    if name.Json? && name.stem !in prior {
      var w :| Holds(t, w, name.stem);
      HeldIsJudged(encode, decode, prior, t, w);
    } else if name.Part? {
      PartIsSkipped(decode, name.w, t.files[name]);
    } else if name.Foreign? {
      ForeignIsJudged(decode, name.bytes, t.files[name]);
    }
  }

  lemma PartIsSkipped(decode: Bytes -> Option<ApplyRecord>, w: RecorderId, bytes: Bytes)
    ensures Judge(decode, FileEntry(Part(w), bytes)) == Skip
  {
    StemOfFile(Part(w));
    hide FileText, StripSuffix;
  }

  lemma ForeignIsJudged(decode: Bytes -> Option<ApplyRecord>, name: Bytes, bytes: Bytes)
    ensures Judge(decode, FileEntry(Foreign(name), bytes)) == if StemIsNoText(name) then Bad(Corrupt) else Skip
  {
  }

  ghost predicate NamesAreText(files: map<FileName, Bytes>) {
    forall bytes :: Foreign(bytes) in files ==> !StemIsNoText(bytes)
  }

  lemma HeldIsJudged(encode: ApplyRecord -> Bytes, decode: Bytes -> Option<ApplyRecord>, prior: map<string, Bytes>,
                     t: Store, w: RecorderId)
    requires Lawful(encode, decode) && Sound(encode, prior, t)
    requires w in t.recorders && t.recorders[w].id.Some?
    ensures var me := t.recorders[w];
            var name := Json(me.id.value);
            && name in t.files
            && FileVerdict(decode, t.files, name) ==
               if !me.published then Skip
               else if Instant(me.record.takenAt) < Pow10(NANOS_WIDTH)
               then Keep(Stored(me.id.value, ReadBack(me.record)))
               else Bad(Corrupt)
  {
    hide Pow10, ParseRecordName, IsPlanText, RecordName;
    var me := t.recorders[w];
    assert RecorderOk(t, w) && me.bytes == encode(me.record);
    StemOfFile(Json(me.id.value));
    hide FileText, StripSuffix, Sound;
    var sequence :| 0 <= sequence < MAX_SEQUENCE
                 && me.id.value == RecordName(me.record.plan, me.record.takenAt, sequence);
    NameReadsBackIff(me.record.plan, me.record.takenAt, sequence);
    NameSplits(me.record.plan, me.record.takenAt, sequence);
    assert me.id.value != "";
  }

  // A listing after any run of recorders, crashed ones included, succeeds exactly
  // when every completed record's instant fits its name, nothing that was there
  // before is bad, and no `.json` name has a stem that is not text.
  lemma ListSucceedsIff(encode: ApplyRecord -> Bytes, decode: Bytes -> Option<ApplyRecord>, prior: map<string, Bytes>,
                        t: Store, entries: seq<Option<Entry>>, order: seq<FileName>)
    requires Lawful(encode, decode) && Sound(encode, prior, t) && Reads(entries, t.files, order)
    ensures Listed(decode, entries).Ok? <==>
            && AllFit(t) && NamesAreText(t.files)
            && forall id :: id in prior ==> !PriorVerdict(decode, prior, id).Bad?
  {
    hide Judge, Pow10, Listed, FileEntry, Reads;
    DirectoryListed(decode, t.files, entries, order);
    if Listed(decode, entries).Ok? {
      forall w | w in t.recorders && t.recorders[w].published
        ensures Instant(t.recorders[w].record.takenAt) < Pow10(NANOS_WIDTH)
      {
        assert RecorderOk(t, w);
        HeldIsJudged(encode, decode, prior, t, w);
      }
      forall bytes | Foreign(bytes) in t.files
        ensures !StemIsNoText(bytes)
      {
        FileIsJudged(encode, decode, prior, t, Foreign(bytes));
      }
      forall id | id in prior
        ensures !PriorVerdict(decode, prior, id).Bad?
      {
        FileIsJudged(encode, decode, prior, t, Json(id));
      }
    }
    if AllFit(t) && NamesAreText(t.files) && forall id :: id in prior ==> !PriorVerdict(decode, prior, id).Bad? {
      forall name | name in t.files
        ensures !FileVerdict(decode, t.files, name).Bad?
      {
        FileIsJudged(encode, decode, prior, t, name);
      }
    }
  }

  // It then returns exactly the completed records and the ones from before, each
  // once, newest first.
  lemma ListReturnsTheCompleted(encode: ApplyRecord -> Bytes, decode: Bytes -> Option<ApplyRecord>,
                                prior: map<string, Bytes>, t: Store,
                                entries: seq<Option<Entry>>, order: seq<FileName>)
    requires Lawful(encode, decode) && Sound(encode, prior, t) && Reads(entries, t.files, order)
    ensures var r := Listed(decode, entries);
            r.Ok? ==>
              && Sorted(r.value, NewestFirst())
              && (forall x :: x in r.value <==>
                    (x.id in prior && PriorVerdict(decode, prior, x.id) == Keep(x)) || exists w :: Completed(t, w, x))
              && (forall x :: multiset(r.value)[x] <= 1)
  {
    hide Judge, Listed, FileEntry, Reads, NewestFirst, AllFit, FileKept;
    ListSucceedsIff(encode, decode, prior, t, entries, order);
    DirectoryListed(decode, t.files, entries, order);
    if Listed(decode, entries).Ok? {
      forall x
        ensures FileKept(decode, t.files, x) <==>
                (x.id in prior && PriorVerdict(decode, prior, x.id) == Keep(x)) || exists w :: Completed(t, w, x)
      {
        KeptIsCompleted(encode, decode, prior, t, x);
      }
    }
  }

  // A record taken 10^20 nanoseconds after the epoch, late in the year 5138, in an
  // empty directory: the call succeeds, and the listing of the one file it leaves is
  // corrupt.
  lemma LateRecordCorrupts(encode: ApplyRecord -> Bytes, decode: Bytes -> Option<ApplyRecord>, plan: string,
                           rest: Bytes) returns (actions: seq<Action>, t: Store)
    requires Lawful(encode, decode) && IsPlanText(plan)
    ensures var record := ApplyRecord(plan, Pow10(NANOS_WIDTH), rest);
            var id := RecordName(plan, Pow10(NANOS_WIDTH), 0);
            && Run(encode, Store(map[], map[]), actions, t) && t.files == map[Json(id) := encode(record)]
            && 0 in t.recorders && t.recorders[0].pc == Done(Result.Ok(id))
            && Listed(decode, [FileEntry(Json(id), encode(record))]) == Err(Corrupt)
  {
    hide RecordName, Pow10, IsPlanText, Run, Judge;
    var record := ApplyRecord(plan, Pow10(NANOS_WIDTH), rest);
    var id := RecordName(plan, Pow10(NANOS_WIDTH), 0);
    var s := Store(map[], map[]);
    actions, t := ApplyRecordStore.AloneIsARun(encode, s, 0, record);
    StartIsSound(encode, map[], s);
    EveryRunIsSound(encode, map[], s, actions, t);
    assert RecorderOk(t, 0);
    HeldIsJudged(encode, decode, map[], t, 0);
    var entries := [FileEntry(Json(id), encode(record))];
    assert entries[..0] == [] && t.files[Json(id)] == encode(record);
    assert Judge(decode, entries[0]) == Bad(Corrupt);
    assert Judged(decode, entries) == Err(Corrupt);
  }

  lemma KeptIsCompleted(encode: ApplyRecord -> Bytes, decode: Bytes -> Option<ApplyRecord>, prior: map<string, Bytes>,
                        t: Store, x: Stored)
    requires Lawful(encode, decode) && Sound(encode, prior, t) && AllFit(t)
    ensures FileKept(decode, t.files, x) <==>
            (x.id in prior && PriorVerdict(decode, prior, x.id) == Keep(x)) || exists w :: Completed(t, w, x)
  {
    hide Pow10, Judge, FileEntry;
    if Json(x.id) in t.files {
      FileIsJudged(encode, decode, prior, t, Json(x.id));
      if FileKept(decode, t.files, x) && x.id !in prior {
        var w :| Holds(t, w, x.id);
        HeldIsJudged(encode, decode, prior, t, w);
        assert Completed(t, w, x);
      }
    }
    if w :| Completed(t, w, x) {
      assert RecorderOk(t, w);
      HeldIsJudged(encode, decode, prior, t, w);
    }
  }
}
