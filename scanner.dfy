/** The directory scan of the index generator (`iter_addons`): which entries of
    the add-ons directory become candidate plugins, under which id, from which
    source file, and with which download extension. */
module Scanner {
  import opened Values
  import opened Sources

  /** One result of `os.scandir`: its name, its full path, and `is_dir()`. */
  datatype DirEntry = DirEntry(name: string, path: string, isDir: bool)

  /** What the scan yields: the plugin id, the file holding its `bl_info`, and
      the extension of the package that `download_url` points to. */
  datatype Candidate = Candidate(id: string, filename: string, ext: string)

  const INIT_FILE := "__init__.py"
  const ZIP_EXT := ".zip"
  const PY_EXT := ".py"

  predicate IsHidden(name: string)
  {
    |name| > 0 && name[0] == '.'
  }

  /** Python's `s.rfind(c)`: the index of the last `c` in `s`, or -1. */
  function RFind(s: string, c: char): (r: int)
    ensures -1 <= r < |s|
    ensures r == -1 <==> c !in s
    ensures r >= 0 ==> s[r] == c && c !in s[r + 1..]
  {
    if s == [] then -1
    else if s[|s| - 1] == c then |s| - 1
    else
      assert s == s[..|s| - 1] + [s[|s| - 1]];
      RFind(s[..|s| - 1], c)
  }

  predicate HasNonDot(s: string, lo: int, hi: int)
    requires 0 <= lo <= hi <= |s|
  {
    exists i :: lo <= i < hi && s[i] != '.'
  }

  /** POSIX `os.path.splitext`: the extension is the part from the last dot of
      the last path component, unless that component has only dots before it. */
  function SplitExt(p: string): (r: (string, string))
    ensures r.0 + r.1 == p
    ensures r.1 == [] || (r.1[0] == '.' && '.' !in r.1[1..] && '/' !in r.1)
  {
    var sep := RFind(p, '/');
    var dot := RFind(p, '.');
    if dot > sep && HasNonDot(p, sep + 1, dot) then
      assert p[dot..][1..] == p[dot + 1..];
      (p[..dot], p[dot..])
    else (p, [])
  }

  /** A directory entry's name is split at its last dot exactly when it has one:
      a name the scan keeps never starts with a dot, so the leading-dots rule of
      `splitext` never applies to it. */
  lemma SplitExtOfEntryName(name: string)
    requires '/' !in name && !IsHidden(name)
    ensures SplitExt(name).1 == [] <==> '.' !in name
    ensures !IsHidden(SplitExt(name).0)
  {
    var dot := RFind(name, '.');
    if '.' in name {
      assert HasNonDot(name, 0, dot) by { assert name[0] != '.'; }
    }
  }

  /** `os.path.join(dir, name)` for a relative `name`. */
  function JoinPath(dir: string, name: string): string
  {
    if dir == [] || dir[|dir| - 1] == '/' then dir + name else dir + "/" + name
  }

  /** What one directory entry contributes to the scan (lines 44-57). */
  function Classify(e: DirEntry, fs: FileSystem): (r: Option<Candidate>)
    ensures r.Some? <==> !IsHidden(e.name) && (e.isDir ==> JoinPath(e.path, INIT_FILE) in fs)
    ensures r.Some? ==> r.value.id + SplitExt(e.name).1 == e.name
    ensures r.Some? && e.isDir ==> r.value.filename == JoinPath(e.path, INIT_FILE) && r.value.ext == ZIP_EXT
    ensures r.Some? && !e.isDir ==> r.value.filename == e.path && r.value.ext == PY_EXT
  {
    if IsHidden(e.name) then None
    else
      var (base, _) := SplitExt(e.name);
      if e.isDir then
        var fname := JoinPath(e.path, INIT_FILE);
        if fname !in fs then None else Some(Candidate(base, fname, ZIP_EXT))
      else Some(Candidate(base, e.path, PY_EXT))
  }

  /** The candidates of a whole directory listing, in listing order. */
  function Scan(entries: seq<DirEntry>, fs: FileSystem): seq<Candidate>
  {
    if entries == [] then []
    else
      var last := Classify(entries[|entries| - 1], fs);
      Scan(entries[..|entries| - 1], fs) + (if last.Some? then [last.value] else [])
  }

  /** `iter_addons`: the generator's loop, collecting what it yields. */
  method IterAddons(entries: seq<DirEntry>, fs: FileSystem) returns (yielded: seq<Candidate>)
    ensures yielded == Scan(entries, fs)
  {
    yielded := [];
    for i := 0 to |entries|
      invariant yielded == Scan(entries[..i], fs)
    {
      assert entries[..i + 1][..i] == entries[..i];
      var item := entries[i];
      if IsHidden(item.name) {
        continue;
      }
      var (base, _) := SplitExt(item.name);
      if item.isDir {
        var fname := JoinPath(item.path, INIT_FILE);
        if fname !in fs {
          continue;
        }
        yielded := yielded + [Candidate(base, fname, ZIP_EXT)];
      } else {
        yielded := yielded + [Candidate(base, item.path, PY_EXT)];
      }
    }
    assert entries[..|entries|] == entries;
  }

  /** Every candidate the scan yields comes from an entry of the listing that
      classifies to it. */
  lemma {:induction false} ScanSound(entries: seq<DirEntry>, fs: FileSystem, c: Candidate)
    requires c in Scan(entries, fs)
    ensures exists i :: 0 <= i < |entries| && Classify(entries[i], fs) == Some(c)
  {
    var n := |entries| - 1;
    var init := entries[..n];
    var last := Classify(entries[n], fs);
    assert Scan(entries, fs) == Scan(init, fs) + (if last.Some? then [last.value] else []);
    if c in Scan(init, fs) {
      ScanSound(init, fs, c);
      var i :| 0 <= i < |init| && Classify(init[i], fs) == Some(c);
      assert entries[i] == init[i];
    } else {
      assert Classify(entries[n], fs) == Some(c);
    }
  }

  /** Every entry that classifies to a candidate has that candidate yielded. */
  lemma {:induction false} ScanComplete(entries: seq<DirEntry>, fs: FileSystem, i: int)
    requires 0 <= i < |entries| && Classify(entries[i], fs).Some?
    ensures Classify(entries[i], fs).value in Scan(entries, fs)
  {
    var n := |entries| - 1;
    var init := entries[..n];
    var last := Classify(entries[n], fs);
    assert Scan(entries, fs) == Scan(init, fs) + (if last.Some? then [last.value] else []);
    if i < n {
      assert init[i] == entries[i];
      ScanComplete(init, fs, i);
    }
  }

  /** Nothing the scan yields comes from a hidden entry, and every id is its
      entry's name with the last extension removed. */
  lemma ScanYieldsVisibleStems(entries: seq<DirEntry>, fs: FileSystem, c: Candidate)
    requires c in Scan(entries, fs)
    ensures exists i :: 0 <= i < |entries| && !IsHidden(entries[i].name)
                        && c.id + SplitExt(entries[i].name).1 == entries[i].name
                        && c.ext in {ZIP_EXT, PY_EXT}
  {
    ScanSound(entries, fs, c);
  }

  /** A directory holding only hidden entries yields nothing. */
  lemma {:induction false} ScanOfHiddenOnly(entries: seq<DirEntry>, fs: FileSystem)
    requires forall i :: 0 <= i < |entries| ==> IsHidden(entries[i].name)
    ensures Scan(entries, fs) == []
  {
    if entries != [] {
      ScanOfHiddenOnly(entries[..|entries| - 1], fs);
    }
  }
}
