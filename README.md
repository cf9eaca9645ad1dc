# Add-on index generator, modelled in Dafny

`tools/generate-json.py` builds `index.json` for the Blender package manager.
It scans a directory of add-ons and reads each add-on's `bl_info` declaration
without running the add-on's code. It validates the declaration, adds a
`download_url` and a `source` label, and gathers the entries by add-on id.
With `--merge`, it first loads the previous index under a schema-version check
and overlays the new entries on the old ones. The document it writes always
carries schema version 1.

This project models that pipeline over abstract inputs:

- The directory listing is a sequence of `DirEntry(name, path, isDir)`.
- The file system is a map from path to `SourceFile`. A `SourceFile` is
  undecodable, unparsable, or a parsed sequence of top-level statements.
- `urljoin` is a function parameter.
- The previous `index.json` is given as the `Value` that `json.load` returns,
  or `None` when it cannot be read.

Python exceptions that escape `main` become `Result.Err(PyError)`. Soft skips
are Python's `None` (`VNone`), or `Ok(None)` for a single candidate.

Modules, in pipeline order:

- `Values` (values.dfy): Python literal and JSON values, exceptions, and
  Python's `==` against an int.
- `Sources` (sources.dfy): source files, statements, assignment targets and
  literal expressions.
- `Scanner` (scanner.dfy): `iter_addons` and `os.path.splitext`.
- `Extractor` (extractor.dfy): `parse_blinfo`.
- `Augmenter` (augmenter.dfy): `blinfo_to_json`, with `REQUIRED_KEYS` and
  `RECOMMENDED_KEYS`.
- `Index` (index.dfy): `parse_addons`, `parse_existing_index`, and the
  merge-and-wrap steps of `main`, with `CURRENT_SCHEMA_VERSION`.

The loops of the source, and `main`'s in-place `update` of the loaded
add-ons, are methods, each proved equal to a specification function:
`IterAddons`, `ParseBlInfo`, `ParseAddons` and `GenerateIndex`. The properties
are proved about those functions.

Where the code behaves in ways its docstrings and option help do not
suggest, the model follows the code:

- The schema check uses Python's `!=`, so a JSON `true` passes as version 1.
  A stricter "exactly 1" reading would refuse it.
- `parse_blinfo` does not catch a failing `ast.literal_eval`, and `open()` can
  raise, so extraction does not always end in "not found". Either exception
  aborts the run.
- `bl_info = None` is indistinguishable from no declaration at all.
- A `bl_info` that is a list or a string goes through Python's `in` test (list
  membership, or substring for a string). If it has both required keys, it
  then fails on `.copy()` or `.update()` and aborts the run. A scalar
  `bl_info` aborts the run at the first `in` test.

## Model

| member | source | states |
|---|---|---|
| Scanner.SplitExt | tools/generate-json.py:47 | base + ext is the name; ext is empty, or is one dot followed by no other dot or separator |
| Scanner.SplitExtOfEntryName | tools/generate-json.py:44-47 | for a visible entry name, the extension is empty exactly when the name has no dot, and the id is not hidden either |
| Scanner.Classify | tools/generate-json.py:44-57 | an entry is kept iff it is not hidden and, when it is a directory, `<path>/__init__.py` exists; a directory gives (stem, `<path>/__init__.py`, `.zip`), a file gives (stem, path, `.py`); stem + extension is the name |
| Scanner.IterAddons | tools/generate-json.py:37-57 | the generator loop yields exactly the classified entries, in listing order |
| Scanner.ScanSound | tools/generate-json.py:43-57 | every yielded candidate comes from a listing entry that classifies to it |
| Scanner.ScanComplete | tools/generate-json.py:43-57 | every entry that classifies to a candidate has it yielded |
| Scanner.ScanYieldsVisibleStems | tools/generate-json.py:44-47 | no yielded candidate comes from a hidden entry; its id is the entry name without its last extension; its ext is `.zip` or `.py` |
| Scanner.ScanOfHiddenOnly | tools/generate-json.py:43-45 | a listing of hidden entries only yields nothing |
| Extractor.FirstBlInfo | tools/generate-json.py:81-89 | returns the index of the first statement that is a plain `Assign` with one target whose `id` is `bl_info`; all earlier statements fail the test; None iff no statement passes it |
| Extractor.BlInfoOf | tools/generate-json.py:60-94 | raises only when the file cannot be opened or the first `bl_info` right-hand side is not a literal; any non-None result was written literally as `bl_info = <value>` at top level |
| Extractor.ParseBlInfo | tools/generate-json.py:60-94 | the loop over `tree.body` with early return gives the same result as BlInfoOf |
| Extractor.FirstMatchDecides | tools/generate-json.py:81-91 | in any file system, the first matching statement of a parsed file decides the result; later statements, matching or not, are ignored |
| Extractor.OnlyPlainSingleAssignCounts | tools/generate-json.py:82-89 | annotated or augmented assignments, several targets, and targets without an `id` never count; a one-target assignment counts iff its target is the name `bl_info` |
| Extractor.NoneDeclarationIsNotFound | tools/generate-json.py:81-94 | no declaration gives None, and so does a leading `bl_info = None` |
| Augmenter.Missing | tools/generate-json.py:105-106 | the reported keys are exactly the listed keys that are not `in` the value |
| Augmenter.BlinfoToJson | tools/generate-json.py:97-124 | scalars raise; rejected iff `name` or `blender` is missing, naming exactly the missing required keys; accepted iff a dict with both keys; the result's keys are the input's keys plus `download_url` and `source`, with url and source set and every other key unchanged; the reported recommended keys are exactly the absent ones; a list or string holding both required keys raises at `.copy()` or `.update()` |
| Augmenter.RecommendedKeysNeverReject | tools/generate-json.py:112-116 | a dict with both required keys and no recommended key is accepted, with all five recommended keys reported in order |
| Index.AddonEntry | tools/generate-json.py:132-144 | a not-found `bl_info` is skipped; extraction errors propagate; a dict declaration with both required keys is stored as the declaration plus `download_url` = urljoin(base, id + ext) and `source`; a scalar raises; a declaration lacking a required key is skipped; a list or string holding both raises; a stored entry always comes from a dict declaration and has exactly its keys plus those two |
| Index.Insert | tools/generate-json.py:140-144 | one loop step: raises iff the loop had raised or the step raises; otherwise adds exactly the step's id when it stores an entry, sets that id's value to the entry, and leaves all other ids unchanged |
| Index.Gather | tools/generate-json.py:130-146 | every id in `json_data` is the id of a step that stored an entry, and the value is that step's entry |
| Index.GatherErrIff | tools/generate-json.py:130-146 | the loop raises iff one of its steps raises, and then with the exception of the first step that raises, all earlier steps having succeeded |
| Index.GatherLastWins | tools/generate-json.py:144 | a storing step whose id no later storing step reuses leaves its entry under its id |
| Index.Addons | tools/generate-json.py:127-146 | every key is the id of a yielded candidate that produced an entry, stored whole; every value has both required keys, a download URL and the run's source |
| Index.ParseAddons | tools/generate-json.py:127-146 | the imperative loop that fills `json_data` gives the same result as Addons over the scan |
| Index.AddonsErrIff | tools/generate-json.py:132-142 | `parse_addons` raises iff one candidate's extraction or validation raises, and then with the exception of the first such candidate |
| Index.AddonsLastWins | tools/generate-json.py:144 | of several candidates sharing an id, the last one that yields an entry decides that id's value, whole |
| Index.AddonsStoresDeclaration | tools/generate-json.py:132-144 | a candidate whose `bl_info` is a dict with `name` and `blender`, not overridden by a later candidate with the same id, is written under its id as the declaration plus `download_url` and `source` |
| Index.ParseExistingIndex | tools/generate-json.py:149-168 | succeeds iff the document is an object whose `schema-version` equals 1 and that has `addons`, and then returns exactly `addons`; a missing version is refused as `-missing-`, any other version is refused as itself |
| Index.SchemaCheckCases | tools/generate-json.py:161-165 | version 2 and a missing version are refused; JSON `true` passes |
| Index.Merge | tools/generate-json.py:199 | the keys are the union of both maps; on shared ids the new value wins whole; old ids that were not rescanned keep their values |
| Index.MergeIdempotent | tools/generate-json.py:199 | overlaying a map with itself, or overlaying the same new entries twice, changes nothing |
| Index.IndexDocument | tools/generate-json.py:201-204 | the written document has exactly the keys `schema-version` and `addons`, with version the integer 1, and reading it back gives exactly the `addons` that were written |
| Index.Wrap | tools/generate-json.py:193-204 | the run aborts iff loading the prior add-ons or the scan raised, or the prior `addons` is not an object, with the load's exception first, then the scan's; otherwise it writes exactly the current-version document around the prior add-ons overlaid with the scan's |
| Index.Run | tools/generate-json.py:179-207 | a run aborts exactly when, under `--merge`, the prior index is unreadable, refused or has a non-object `addons`, or when the scan raises; a prior-index error comes first, then the scan's exception; every document written has exactly the keys `schema-version` and `addons`, with version the integer 1, and passes the next run's schema check; under `--merge` the written add-ons are the prior ones overlaid with the scan's; without `--merge` they are exactly the scan's |
| Index.GenerateIndex | tools/generate-json.py:192-206 | the imperative `main` (load or start empty, scan, update, wrap) gives the same result as Run |
| Index.RunOverlaysScan | tools/generate-json.py:193-199 | a rescanned id gets the new entry; under `--merge` an id not rescanned is present iff it was in the old index, with its old value; without `--merge` the written ids are exactly the scanned ids |
| Index.FreshIndexIsMergeFixpoint | tools/generate-json.py:193-204 | merging a freshly generated index into a run over the same directory and flags writes the same document |
| Index.MergeRunIdempotent | tools/generate-json.py:193-204 | re-running a merge over its own output writes the same document |
| Index.HiddenOnlyIndexIsEmpty | tools/generate-json.py:43-45 | a directory of hidden entries only gives an index with no add-ons |
| Index.FreshEntriesAreValid | tools/generate-json.py:130-146 | every entry written without `--merge` has both required keys, a download URL and the run's source label |

## Left out

- File system I/O is not modelled: `os.scandir`, `is_dir()`, `os.path.exists` and file reading. The listing and the file contents are inputs. Listing order is the order of the input sequence.
- A UnicodeDecodeError is modelled only as the `Undecodable` state of a file.
- A path that exists but cannot be opened is not modelled. Examples are a directory named `__init__.py`, or an `__init__.py` without read permission. `os.path.exists` (line 51) accepts such a path and `open()` (line 68) then raises, aborting the run. The model has one notion of presence, `fname in fs`, for both existing and readable, so a *package* candidate it keeps can always be opened. A plain-file entry whose path is not in `fs`, such as a dangling symlink, is kept and raises `OpenFailed`, as `open()` does at line 68.
- `ast.parse` is not modelled. A file is either `Unparsable` or given as its top-level statements. `Unparsable` is always a soft skip, as for the SyntaxError caught at lines 75-79. The model leaves out the other exceptions `ast.parse` can raise, which escape that handler and abort the run: a ValueError for a NUL byte in the source (before Python 3.12), and a RecursionError or MemoryError for very deep nesting. So `BlInfoOf`'s "raises only when" holds only within this abstraction.
- Extractor.BlInfoOf: does not raise for an `Unparsable` file, because the model does not separate a SyntaxError from the other `ast.parse` exceptions listed above.
- `ast.literal_eval` is not modelled. An expression is either a literal with its value or something `literal_eval` refuses. Exceptions other than ValueError are not modelled.
- Python values that are not modelled: floats, complex numbers, bytes, sets, `Ellipsis`, and dicts with non-string keys. A literal set holding both required keys would get past `blinfo_to_json` and fail only inside `json.dump`.
- `urllib.parse.urljoin` is a parameter. So the `http://host/` + `foo.py` example of URL resolution is not proved.
- JSON reading and writing are not modelled: `json.load`, `json.dump`, `indent=4`, `sort_keys=True` and overwriting the file. The model assumes that a document it writes reads back as the same value.
- Logging is not modelled. The only trace of the log lines is the missing-key lists carried by `Validation`.
- `argparse` and the defaults `internal` and `http://localhost:8000/` are not modelled. `merge`, `source` and `base` are parameters.
- `--source` or `--base` given without a value (`nargs='?'`) is not modelled. Python then sets it to None, so entries would carry `"source": null` and `urljoin(None, id + ext)` would give `id + ext`. In the model `source` and `base` are always strings.
