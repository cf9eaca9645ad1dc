/** The validator/augmenter (`blinfo_to_json`): rejects a declaration that
    lacks a required key and otherwise returns a copy of it carrying the
    package manager's `download_url` and `source`. */
module Augmenter {
  import opened Values

  const REQUIRED_KEYS: seq<string> := ["name", "blender"]
  const RECOMMENDED_KEYS: seq<string> := ["author", "description", "location", "wiki_url", "category"]
  const DOWNLOAD_URL := "download_url"
  const SOURCE := "source"

  /** The outcome of `blinfo_to_json`. `Accepted` also carries the recommended
      keys that the informational log line names; `Rejected` carries the
      required keys that the warning names. */
  datatype Validation =
    | Accepted(entry: map<string, Value>, missingRecommended: seq<string>)
    | Rejected(missingRequired: seq<string>)
    | Raised(error: PyError)

  /** Values on which Python's `key in v` does not raise TypeError. */
  predicate SupportsIn(v: Value)
  {
    v.VDict? || v.VList? || v.VStr?
  }

  /** Python's `key in v`: a key of a dict, an element of a list, a substring
      of a string. */
  predicate Has(v: Value, key: string)
  {
    match v
    case VDict(m) => key in m
    case VList(items) => VStr(key) in items
    case VStr(s) => IsSubstring(key, s)
    case _ => false
  }

  /** `[key for key in keys if key not in v]`. */
  function Missing(keys: seq<string>, v: Value): (r: seq<string>)
    ensures forall k :: k in r <==> k in keys && !Has(v, k)
    ensures |r| <= |keys|
  {
    if keys == [] then []
    else (if Has(v, keys[0]) then [] else [keys[0]]) + Missing(keys[1..], v)
  }

  /** `blinfo_to_json(bl_info, addon_id, source, url)` (lines 105-124). */
  function BlinfoToJson(info: Value, addonId: string, source: string, url: string): (r: Validation)
    // Scalars raise on the first membership test.
    ensures !SupportsIn(info) <==> r == Raised(NotAContainer(addonId))
    // Rejection happens exactly when a required key is absent, and names those keys.
    ensures r.Rejected? <==> SupportsIn(info) && (!Has(info, "name") || !Has(info, "blender"))
    ensures r.Rejected? ==> r.missingRequired != [] &&
                            forall k :: k in r.missingRequired <==> k in REQUIRED_KEYS && !Has(info, k)
    // Only a dict holding both required keys is accepted; recommended keys never matter.
    ensures r.Accepted? <==> info.VDict? && "name" in info.entries && "blender" in info.entries
    // The entry is the declaration plus exactly `download_url` and `source`.
    ensures r.Accepted? ==>
      && r.entry.Keys == info.entries.Keys + {DOWNLOAD_URL, SOURCE}
      && r.entry[DOWNLOAD_URL] == VStr(url)
      && r.entry[SOURCE] == VStr(source)
      && (forall k :: k in info.entries && k != DOWNLOAD_URL && k != SOURCE ==> r.entry[k] == info.entries[k])
    ensures r.Accepted? ==> forall k :: k in r.missingRecommended <==> k in RECOMMENDED_KEYS && k !in info.entries
    // A list or string that passes the membership tests fails on `.copy()` or `.update()`.
    ensures (info.VList? || info.VStr?) && Has(info, "name") && Has(info, "blender") ==> r == Raised(NoDictMethods(addonId))
  {
    if !SupportsIn(info) then Raised(NotAContainer(addonId))
    else
      var missingReq := Missing(REQUIRED_KEYS, info);
      assert REQUIRED_KEYS == ["name", "blender"];
      if missingReq != [] then
        assert missingReq[0] in missingReq;
        Rejected(missingReq)
      else
        assert Has(info, "name") && Has(info, "blender");
        match info
        case VDict(m) => Accepted(m + map[DOWNLOAD_URL := VStr(url), SOURCE := VStr(source)], Missing(RECOMMENDED_KEYS, info))
        case _ => Raised(NoDictMethods(addonId))
  }

  /** A declaration with both required keys and none of the recommended ones
      is still accepted; all five recommended keys are reported, in order. */
  lemma RecommendedKeysNeverReject(m: map<string, Value>, addonId: string, source: string, url: string)
    requires "name" in m && "blender" in m
    ensures BlinfoToJson(VDict(m - set k | k in RECOMMENDED_KEYS), addonId, source, url).Accepted?
    ensures BlinfoToJson(VDict(m - set k | k in RECOMMENDED_KEYS), addonId, source, url).missingRecommended
            == RECOMMENDED_KEYS
  {
    var stripped := m - set k | k in RECOMMENDED_KEYS;
    assert "name" in stripped && "blender" in stripped;
    var v := VDict(stripped);
    assert Missing(RECOMMENDED_KEYS, v) == RECOMMENDED_KEYS by {
      MissingAll(RECOMMENDED_KEYS, v);
    }
  }

  /** When none of the keys is present, all of them are reported, in order. */
  lemma {:induction false} MissingAll(keys: seq<string>, v: Value)
    requires forall k :: k in keys ==> !Has(v, k)
    ensures Missing(keys, v) == keys
  {
    if keys != [] {
      MissingAll(keys[1..], v);
    }
  }
}
