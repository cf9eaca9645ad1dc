/** The index builder: `parse_addons` gathers the accepted entries of one scan
    by plugin id, `parse_existing_index` reads a prior index under a schema
    check, and `main` overlays the new entries on the old ones and wraps them
    in a document carrying the current schema version. */
module Index {
  import opened Values
  import opened Sources
  import opened Scanner
  import opened Extractor
  import opened Augmenter

  const CURRENT_SCHEMA_VERSION := 1
  const SCHEMA_KEY := "schema-version"
  const ADDONS_KEY := "addons"
  const MISSING_VERSION := "-missing-"

  /** `urllib.parse.urljoin`, supplied by the caller. */
  type UrlJoin = (string, string) -> string

  /** An entry as a scan with label `source` writes it: an object with both
      required keys, a `download_url` and that `source`. */
  ghost predicate IsScannedEntry(v: Value, source: string)
  {
    && v.VDict?
    && "name" in v.entries && "blender" in v.entries
    && DOWNLOAD_URL in v.entries && v.entries[DOWNLOAD_URL].VStr?
    && SOURCE in v.entries && v.entries[SOURCE] == VStr(source)
  }

  /** One iteration of `parse_addons` (lines 133-144): the entry for candidate
      `c`, `None` when it is skipped, or the exception that ends the run. */
  function AddonEntry(fs: FileSystem, c: Candidate, source: string, base: string, join: UrlJoin)
    : (r: Result<Option<map<string, Value>>>)
    ensures BlInfoOf(fs, c.filename) == Ok(VNone) ==> r == Ok(None)
    ensures BlInfoOf(fs, c.filename).Err? ==> r == Err(BlInfoOf(fs, c.filename).error)
    ensures r.Ok? && r.value.Some? ==>
      && BlInfoOf(fs, c.filename).Ok? && BlInfoOf(fs, c.filename).value.VDict?
      && r.value.value.Keys == BlInfoOf(fs, c.filename).value.entries.Keys + {DOWNLOAD_URL, SOURCE}
      && "name" in r.value.value && "blender" in r.value.value
      && r.value.value[DOWNLOAD_URL] == VStr(join(base, c.id + c.ext))
      && r.value.value[SOURCE] == VStr(source)
    // A dict declaration holding both required keys is stored: all its keys,
    // plus the joined download URL and the source label.
    ensures var info := BlInfoOf(fs, c.filename);
            info.Ok? && info.value.VDict? && "name" in info.value.entries && "blender" in info.value.entries
            ==> r == Ok(Some(info.value.entries + map[DOWNLOAD_URL := VStr(join(base, c.id + c.ext)),
                                                      SOURCE := VStr(source)]))
    // A scalar declaration raises; a list or string lacking a required key is
    // skipped, and one holding both raises on `.copy()` or `.update()`.
    ensures var info := BlInfoOf(fs, c.filename);
            info.Ok? && info.value != VNone && !SupportsIn(info.value) ==> r == Err(NotAContainer(c.id))
    ensures var info := BlInfoOf(fs, c.filename);
            info.Ok? && SupportsIn(info.value) && (!Has(info.value, "name") || !Has(info.value, "blender"))
            ==> r == Ok(None)
    ensures var info := BlInfoOf(fs, c.filename);
            info.Ok? && (info.value.VList? || info.value.VStr?) && Has(info.value, "name") && Has(info.value, "blender")
            ==> r == Err(NoDictMethods(c.id))
  {
    match BlInfoOf(fs, c.filename)
    case Err(e) => Err(e)
    case Ok(info) =>
      if info == VNone then Ok(None)
      else
        match BlinfoToJson(info, c.id, source, join(base, c.id + c.ext))
        case Raised(e) => Err(e)
        case Rejected(_) => Ok(None)
        case Accepted(entry, _) => Ok(Some(entry))
  }

  /** Candidate `c` ends up with an entry of its own. */
  predicate Yields(fs: FileSystem, c: Candidate, source: string, base: string, join: UrlJoin)
  {
    AddonEntry(fs, c, source, base, join).Ok? && AddonEntry(fs, c, source, base, join).value.Some?
  }

  /** What one candidate contributes to `json_data`: its id and the outcome of
      its iteration. */
  datatype Step = Step(addonId: string, outcome: Result<Option<map<string, Value>>>)

  predicate Stores(s: Step)
  {
    s.outcome.Ok? && s.outcome.value.Some?
  }

  /** The outcome of every candidate, in scan order. */
  function Steps(cands: seq<Candidate>, fs: FileSystem, source: string, base: string, join: UrlJoin)
    : (r: seq<Step>)
    ensures |r| == |cands|
    ensures forall i :: 0 <= i < |cands| ==> r[i] == Step(cands[i].id, AddonEntry(fs, cands[i], source, base, join))
  {
    seq(|cands|, i requires 0 <= i < |cands| => Step(cands[i].id, AddonEntry(fs, cands[i], source, base, join)))
  }

  /** The body of the loop of `parse_addons` once the candidate's outcome is
      known: store the entry under its id, skip, or raise. */
  function Insert(jsonData: Result<map<string, Value>>, s: Step): (r: Result<map<string, Value>>)
    ensures r.Ok? <==> jsonData.Ok? && s.outcome.Ok?
    ensures r.Ok? ==> r.value.Keys == jsonData.value.Keys + (if Stores(s) then {s.addonId} else {})
    ensures r.Ok? ==> forall k :: k in jsonData.value && k != s.addonId ==> r.value[k] == jsonData.value[k]
    ensures r.Ok? && Stores(s) ==> r.value[s.addonId] == VDict(s.outcome.value.value)
  {
    if jsonData.Err? then jsonData
    else
      match s.outcome
      case Err(e) => Err(e)
      case Ok(None) => jsonData
      case Ok(Some(entry)) => Ok(jsonData.value[s.addonId := VDict(entry)])
  }

  /** The `json_data` dict after the loop has run over `steps`, or the first
      exception raised on the way. Every stored value is the entry of a step
      with that id. */
  function Gather(steps: seq<Step>): (r: Result<map<string, Value>>)
    ensures r.Ok? ==> forall k :: k in r.value ==>
              exists i :: 0 <= i < |steps| && steps[i].addonId == k && Stores(steps[i])
                          && r.value[k] == VDict(steps[i].outcome.value.value)
  {
    if steps == [] then Ok(map[])
    else
      var init := steps[..|steps| - 1];
      assert forall i :: 0 <= i < |init| ==> init[i] == steps[i];
      Insert(Gather(init), steps[|steps| - 1])
  }

  /** Once some prefix of the steps raises, the whole loop raises the same
      exception. */
  lemma {:induction false} GatherErrPersists(steps: seq<Step>, n: nat)
    requires n <= |steps| && Gather(steps[..n]).Err?
    ensures Gather(steps) == Gather(steps[..n])
  {
    if n < |steps| {
      var init := steps[..|steps| - 1];
      assert init[..n] == steps[..n];
      GatherErrPersists(init, n);
    } else {
      assert steps[..n] == steps;
    }
  }

  /** The loop raises exactly when one of the steps raises, and then with the
      exception of the first step that raises. */
  lemma {:induction false} GatherErrIff(steps: seq<Step>)
    ensures Gather(steps).Err? <==> exists i :: 0 <= i < |steps| && steps[i].outcome.Err?
    ensures Gather(steps).Err? ==>
              exists i :: 0 <= i < |steps| && steps[i].outcome.Err? && Gather(steps).error == steps[i].outcome.error
                          && forall j :: 0 <= j < i ==> steps[j].outcome.Ok?
  {
    if steps != [] {
      var n := |steps| - 1;
      var init := steps[..n];
      GatherErrIff(init);
      assert forall i :: 0 <= i < n ==> init[i] == steps[i];
      if Gather(init).Ok? && steps[n].outcome.Err? {
        assert forall j :: 0 <= j < n ==> steps[j].outcome.Ok?;
      }
    }
  }

  /** Every step that stores an entry has its id in the result; the value there
      is that of the last step storing under the id. */
  lemma {:induction false} GatherLastWins(steps: seq<Step>, i: nat)
    requires Gather(steps).Ok?
    requires i < |steps| && Stores(steps[i])
    requires forall j :: i < j < |steps| && steps[j].addonId == steps[i].addonId ==> !Stores(steps[j])
    ensures steps[i].addonId in Gather(steps).value
    ensures Gather(steps).value[steps[i].addonId] == VDict(steps[i].outcome.value.value)
  {
    var n := |steps| - 1;
    var init := steps[..n];
    if i < n {
      assert init[i] == steps[i];
      assert forall j :: i < j < n ==> init[j] == steps[j];
      GatherLastWins(init, i);
    }
  }

  /** The `json_data` dict `parse_addons` returns for the candidates `cands`. */
  function Addons(cands: seq<Candidate>, fs: FileSystem, source: string, base: string, join: UrlJoin)
    : (r: Result<map<string, Value>>)
    // Each key is the id of a candidate that yields an entry, stored whole.
    ensures r.Ok? ==> forall k :: k in r.value ==>
              exists i :: 0 <= i < |cands| && cands[i].id == k && Yields(fs, cands[i], source, base, join)
                          && r.value[k] == VDict(AddonEntry(fs, cands[i], source, base, join).value.value)
    ensures r.Ok? ==> forall k :: k in r.value ==> IsScannedEntry(r.value[k], source)
  {
    Gather(Steps(cands, fs, source, base, join))
  }

  /** `parse_addons`: scans the directory and inserts each accepted entry into
      `json_data` under its id. */
  method ParseAddons(entries: seq<DirEntry>, fs: FileSystem, source: string, base: string, join: UrlJoin)
    returns (r: Result<map<string, Value>>)
    ensures r == Addons(Scan(entries, fs), fs, source, base, join)
  {
    var cands := IterAddons(entries, fs);
    ghost var steps := Steps(cands, fs, source, base, join);
    var jsonData: map<string, Value> := map[];
    for i := 0 to |cands|
      invariant Gather(steps[..i]) == Ok(jsonData)
    {
      assert steps[..i + 1][..i] == steps[..i];
      assert Gather(steps[..i + 1]) == Insert(Ok(jsonData), steps[i]);
      var c := cands[i];
      var blInfo := ParseBlInfo(fs, c.filename);
      if blInfo.Err? {
        GatherErrPersists(steps, i + 1);
        return Err(blInfo.error);
      }
      if blInfo.value == VNone {
        continue;
      }
      var url := join(base, c.id + c.ext);
      var asJson := BlinfoToJson(blInfo.value, c.id, source, url);
      if asJson.Raised? {
        GatherErrPersists(steps, i + 1);
        return Err(asJson.error);
      }
      if asJson.Rejected? {
        continue;
      }
      jsonData := jsonData[c.id := VDict(asJson.entry)];
    }
    assert steps[..|cands|] == steps;
    r := Ok(jsonData);
  }

  /** `parse_addons` raises exactly when the iteration of one candidate raises,
      and then with the exception of the first candidate that raises. */
  lemma AddonsErrIff(cands: seq<Candidate>, fs: FileSystem, source: string, base: string, join: UrlJoin)
    ensures Addons(cands, fs, source, base, join).Err?
            <==> exists i :: 0 <= i < |cands| && AddonEntry(fs, cands[i], source, base, join).Err?
    ensures Addons(cands, fs, source, base, join).Err? ==>
              exists i :: 0 <= i < |cands| && AddonEntry(fs, cands[i], source, base, join).Err?
                          && Addons(cands, fs, source, base, join).error == AddonEntry(fs, cands[i], source, base, join).error
                          && forall j :: 0 <= j < i ==> AddonEntry(fs, cands[j], source, base, join).Ok?
  {
    GatherErrIff(Steps(cands, fs, source, base, join));
  }

  /** Among candidates sharing an id, the last one that yields an entry decides
      that id's value, whole; in particular every candidate that yields an
      entry has its id in the result. */
  lemma AddonsLastWins(cands: seq<Candidate>, fs: FileSystem, source: string, base: string, join: UrlJoin, i: nat)
    requires Addons(cands, fs, source, base, join).Ok?
    requires i < |cands| && Yields(fs, cands[i], source, base, join)
    requires forall j :: i < j < |cands| && cands[j].id == cands[i].id ==> !Yields(fs, cands[j], source, base, join)
    ensures cands[i].id in Addons(cands, fs, source, base, join).value
    ensures Addons(cands, fs, source, base, join).value[cands[i].id]
            == VDict(AddonEntry(fs, cands[i], source, base, join).value.value)
  {
    var steps := Steps(cands, fs, source, base, join);
    assert forall j :: i < j < |steps| && steps[j].addonId == steps[i].addonId ==> !Stores(steps[j]);
    GatherLastWins(steps, i);
  }

  /** A candidate whose `bl_info` is a dict holding both required keys, and
      which no later candidate with the same id overrides, is written under its
      id as its declaration plus `download_url` and `source`. */
  lemma AddonsStoresDeclaration(cands: seq<Candidate>, fs: FileSystem, source: string, base: string,
                                join: UrlJoin, i: nat)
    requires Addons(cands, fs, source, base, join).Ok?
    requires i < |cands| && BlInfoOf(fs, cands[i].filename).Ok?
    requires BlInfoOf(fs, cands[i].filename).value.VDict?
    requires "name" in BlInfoOf(fs, cands[i].filename).value.entries
    requires "blender" in BlInfoOf(fs, cands[i].filename).value.entries
    requires forall j :: i < j < |cands| && cands[j].id == cands[i].id ==> !Yields(fs, cands[j], source, base, join)
    ensures cands[i].id in Addons(cands, fs, source, base, join).value
    ensures Addons(cands, fs, source, base, join).value[cands[i].id]
            == VDict(BlInfoOf(fs, cands[i].filename).value.entries
                     + map[DOWNLOAD_URL := VStr(join(base, cands[i].id + cands[i].ext)), SOURCE := VStr(source)])
  {
    AddonsLastWins(cands, fs, source, base, join, i);
  }

  /** `parse_existing_index` after `json.load` gave `doc` (lines 161-168). */
  function ParseExistingIndex(doc: Value): (r: Result<Value>)
    ensures r.Ok? <==> doc.VDict? && SCHEMA_KEY in doc.entries
                       && EqualsInt(doc.entries[SCHEMA_KEY], CURRENT_SCHEMA_VERSION)
                       && ADDONS_KEY in doc.entries
    ensures r.Ok? ==> r.value == doc.entries[ADDONS_KEY]
    ensures doc.VDict? && SCHEMA_KEY !in doc.entries ==> r == Err(UnsupportedSchema(VStr(MISSING_VERSION)))
    ensures doc.VDict? && SCHEMA_KEY in doc.entries && !EqualsInt(doc.entries[SCHEMA_KEY], CURRENT_SCHEMA_VERSION)
            ==> r == Err(UnsupportedSchema(doc.entries[SCHEMA_KEY]))
  {
    match doc
    case VDict(m) =>
      var version := if SCHEMA_KEY in m then m[SCHEMA_KEY] else VStr(MISSING_VERSION);
      if !EqualsInt(version, CURRENT_SCHEMA_VERSION) then Err(UnsupportedSchema(version))
      else if ADDONS_KEY !in m then Err(MissingAddons)
      else Ok(m[ADDONS_KEY])
    case _ => Err(IndexNotAnObject)
  }

  /** The schema check compares with Python's `==`: version 2 and a missing
      version are refused, while JSON `true` equals 1 and passes. */
  lemma SchemaCheckCases(addons: Value)
    ensures ParseExistingIndex(VDict(map[SCHEMA_KEY := VInt(2), ADDONS_KEY := addons]))
            == Err(UnsupportedSchema(VInt(2)))
    ensures ParseExistingIndex(VDict(map[ADDONS_KEY := addons])) == Err(UnsupportedSchema(VStr(MISSING_VERSION)))
    ensures ParseExistingIndex(VDict(map[SCHEMA_KEY := VBool(true), ADDONS_KEY := addons])) == Ok(addons)
  {
  }

  /** `addon_data.update(new_addon_data)`: new entries replace old ones with
      the same id whole, and old ids not rescanned keep their entries. */
  function Merge(existing: map<string, Value>, scanned: map<string, Value>): (r: map<string, Value>)
    ensures r.Keys == existing.Keys + scanned.Keys
    ensures forall k :: k in scanned ==> r[k] == scanned[k]
    ensures forall k :: k in existing && k !in scanned ==> r[k] == existing[k]
  {
    existing + scanned
  }

  /** Overlaying a map with itself, or overlaying the same new entries twice,
      changes nothing. */
  lemma MergeIdempotent(existing: map<string, Value>, scanned: map<string, Value>)
    ensures Merge(scanned, scanned) == scanned
    ensures Merge(Merge(existing, scanned), scanned) == Merge(existing, scanned)
  {
  }

  /** The document `main` writes (lines 201-204); reading it back passes the
      schema check and gives the same `addons`. */
  function IndexDocument(addons: map<string, Value>): (r: Value)
    ensures r.VDict? && r.entries.Keys == {SCHEMA_KEY, ADDONS_KEY}
    ensures r.entries[SCHEMA_KEY] == VInt(CURRENT_SCHEMA_VERSION)
    ensures ParseExistingIndex(r) == Ok(VDict(addons))
  {
    VDict(map[SCHEMA_KEY := VInt(CURRENT_SCHEMA_VERSION), ADDONS_KEY := VDict(addons)])
  }

  /** Lines 193-204 once the prior add-ons (`start`) and the scan's entries
      (`scanned`) are known: the first exception aborts the run, `update`
      needs the prior add-ons to be an object, and the overlay is wrapped in a
      current-version document. */
  function Wrap(start: Result<Value>, scanned: Result<map<string, Value>>): (r: Result<Value>)
    ensures r.Err? <==> start.Err? || scanned.Err? || !start.value.VDict?
    ensures start.Err? ==> r == Err(start.error)
    ensures start.Ok? && scanned.Err? ==> r == Err(scanned.error)
    ensures start.Ok? && scanned.Ok? && !start.value.VDict? ==> r == Err(AddonsNotAnObject)
    ensures r.Ok? ==> ParseExistingIndex(r.value) == Ok(VDict(Merge(start.value.entries, scanned.value)))
    // What is written is exactly the current-version document around the overlay.
    ensures r.Ok? ==> r.value == IndexDocument(Merge(start.value.entries, scanned.value))
  {
    if start.Err? then Err(start.error)
    else if scanned.Err? then Err(scanned.error)
    else if !start.value.VDict? then Err(AddonsNotAnObject)
    else Ok(IndexDocument(Merge(start.value.entries, scanned.value)))
  }

  /** Without `--merge` there are no prior entries, and overlaying onto none
      gives the new entries. */
  lemma MergeIntoEmpty(scanned: Result<map<string, Value>>)
    ensures scanned.Ok? ==> Merge(map[], scanned.value) == scanned.value
  {
  }

  /** What one run of `main` writes to index.json, or the exception that stops
      it before anything is written. `existingIndex` is what `json.load` gives
      for the current index.json under `--merge`, `None` when that file cannot
      be opened or is not JSON. */
  function Run(merge: bool, existingIndex: Option<Value>, entries: seq<DirEntry>, fs: FileSystem,
               source: string, base: string, join: UrlJoin): (r: Result<Value>)
    // Whatever is written passes the schema check of the next run.
    ensures r.Ok? ==> ParseExistingIndex(r.value).Ok?
    // The written document has exactly the two top-level keys, with version 1 as an int.
    ensures r.Ok? ==> && r.value.VDict? && r.value.entries.Keys == {SCHEMA_KEY, ADDONS_KEY}
                      && r.value.entries[SCHEMA_KEY] == VInt(CURRENT_SCHEMA_VERSION)
    // Under --merge an unreadable or unsupported prior index aborts the run.
    ensures merge && existingIndex.None? ==> r == Err(IndexUnreadable)
    ensures merge && existingIndex.Some? && ParseExistingIndex(existingIndex.value).Err?
            ==> r == Err(ParseExistingIndex(existingIndex.value).error)
    // The run aborts exactly on the fatal errors: an unreadable or refused prior
    // index, a prior `addons` that is not an object, or a raising scan.
    ensures r.Err? <==>
            || (merge && (|| existingIndex.None?
                          || ParseExistingIndex(existingIndex.value).Err?
                          || !ParseExistingIndex(existingIndex.value).value.VDict?))
            || Addons(Scan(entries, fs), fs, source, base, join).Err?
    // Once the prior index has loaded, a raising scan surfaces before `update`.
    ensures (!merge || (existingIndex.Some? && ParseExistingIndex(existingIndex.value).Ok?))
            && Addons(Scan(entries, fs), fs, source, base, join).Err?
            ==> r == Err(Addons(Scan(entries, fs), fs, source, base, join).error)
    // A raising scan aborts the run in both modes.
    ensures r.Ok? ==> Addons(Scan(entries, fs), fs, source, base, join).Ok?
    // Under --merge the written entries are the prior ones overlaid with the scan's.
    ensures merge && r.Ok? ==>
            && existingIndex.Some? && ParseExistingIndex(existingIndex.value).Ok?
            && ParseExistingIndex(existingIndex.value).value.VDict?
            && ParseExistingIndex(r.value)
               == Ok(VDict(Merge(ParseExistingIndex(existingIndex.value).value.entries,
                                 Addons(Scan(entries, fs), fs, source, base, join).value)))
    // Without --merge the written entries are exactly those of the scan.
    ensures !merge && r.Ok? ==>
            && Addons(Scan(entries, fs), fs, source, base, join).Ok?
            && ParseExistingIndex(r.value) == Ok(VDict(Addons(Scan(entries, fs), fs, source, base, join).value))
  {
    var start :=
      if !merge then Ok(VDict(map[]))
      else if existingIndex.None? then Err(IndexUnreadable)
      else ParseExistingIndex(existingIndex.value);
    var scanned := Addons(Scan(entries, fs), fs, source, base, join);
    MergeIntoEmpty(scanned);
    Wrap(start, scanned)
  }

  /** `main` after argument parsing: load the prior entries or start empty,
      scan, overlay, wrap. */
  method GenerateIndex(merge: bool, existingIndex: Option<Value>, entries: seq<DirEntry>, fs: FileSystem,
                       source: string, base: string, join: UrlJoin) returns (r: Result<Value>)
    ensures r == Run(merge, existingIndex, entries, fs, source, base, join)
  {
    var addonData: Value;
    if merge {
      if existingIndex.None? {
        return Err(IndexUnreadable);
      }
      var prior := ParseExistingIndex(existingIndex.value);
      if prior.Err? {
        return Err(prior.error);
      }
      addonData := prior.value;
    } else {
      addonData := VDict(map[]);
    }
    var newAddonData := ParseAddons(entries, fs, source, base, join);
    if newAddonData.Err? {
      return Err(newAddonData.error);
    }
    if !addonData.VDict? {
      return Err(AddonsNotAnObject);
    }
    addonData := VDict(Merge(addonData.entries, newAddonData.value));
    r := Ok(IndexDocument(addonData.entries));
  }

  /** The entries a run writes for a given id: the rescanned entry when the
      scan yields one, otherwise the prior entry under --merge. */
  lemma RunOverlaysScan(merge: bool, doc: Value, entries: seq<DirEntry>, fs: FileSystem,
                        source: string, base: string, join: UrlJoin, k: string)
    requires Run(merge, Some(doc), entries, fs, source, base, join).Ok?
    ensures var written := ParseExistingIndex(Run(merge, Some(doc), entries, fs, source, base, join).value).value;
            var scanned := Addons(Scan(entries, fs), fs, source, base, join).value;
            && written.VDict?
            && (k in scanned ==> k in written.entries && written.entries[k] == scanned[k])
            && (merge && k !in scanned ==>
                  (k in written.entries <==> k in ParseExistingIndex(doc).value.entries)
                  && (k in written.entries ==> written.entries[k] == ParseExistingIndex(doc).value.entries[k]))
            && (!merge ==> written.entries.Keys == scanned.Keys)
  {
  }

  /** Merging a freshly generated index into a run over the same directory and
      flags writes the same document again. */
  lemma FreshIndexIsMergeFixpoint(entries: seq<DirEntry>, fs: FileSystem, source: string, base: string,
                                  join: UrlJoin, prior: Option<Value>)
    requires Run(false, prior, entries, fs, source, base, join).Ok?
    ensures Run(true, Some(Run(false, prior, entries, fs, source, base, join).value), entries, fs, source, base, join)
            == Run(false, prior, entries, fs, source, base, join)
  {
    var scanned := Addons(Scan(entries, fs), fs, source, base, join).value;
    MergeIdempotent(scanned, scanned);
  }

  /** Re-running a merge over its own output changes nothing. */
  lemma MergeRunIdempotent(doc: Value, entries: seq<DirEntry>, fs: FileSystem, source: string, base: string,
                           join: UrlJoin)
    requires Run(true, Some(doc), entries, fs, source, base, join).Ok?
    ensures Run(true, Some(Run(true, Some(doc), entries, fs, source, base, join).value), entries, fs, source, base, join)
            == Run(true, Some(doc), entries, fs, source, base, join)
  {
    var scanned := Addons(Scan(entries, fs), fs, source, base, join).value;
    MergeIdempotent(ParseExistingIndex(doc).value.entries, scanned);
  }

  /** A directory holding only hidden entries produces an index with no
      add-ons. */
  lemma HiddenOnlyIndexIsEmpty(entries: seq<DirEntry>, fs: FileSystem, source: string, base: string,
                               join: UrlJoin, prior: Option<Value>)
    requires forall i :: 0 <= i < |entries| ==> IsHidden(entries[i].name)
    ensures Run(false, prior, entries, fs, source, base, join) == Ok(IndexDocument(map[]))
  {
    ScanOfHiddenOnly(entries, fs);
  }

  /** Every entry a run without --merge writes has both required keys, a
      download URL and the run's source label. */
  lemma FreshEntriesAreValid(entries: seq<DirEntry>, fs: FileSystem, source: string, base: string,
                             join: UrlJoin, prior: Option<Value>)
    requires Run(false, prior, entries, fs, source, base, join).Ok?
    ensures var written := ParseExistingIndex(Run(false, prior, entries, fs, source, base, join).value).value;
            written.VDict? && forall k :: k in written.entries ==> IsScannedEntry(written.entries[k], source)
  {
  }
}
