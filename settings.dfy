/**
 * models/Settings.php: the `system_settings` table of site-wide key/value
 * settings (`setting_value` is a nullable TEXT column). `present` says whether
 * the table is there; a query on a missing table raises the PDOException
 * that getAll turns into an empty result. `json_encode` is the parameter
 * `enc`.
 */
module SiteSettings {
  import opened Optional
  import opened Values

  /** setting_key to setting_value; None is SQL NULL. */
  type Table = map<string, Option<string>>

  const PublicKeys: seq<string> := ["site_name", "site_description", "site_logo", "favicon", "contact_email", "social_links", "maintenance_mode"]
  const SeoKeys: seq<string> := ["meta_title", "meta_description", "site_keywords", "og_image", "twitter_card"]
  const AdsenseKeys: seq<string> := ["adsense_enabled", "adsense_client_id", "adsense_slot_feed", "adsense_slot_sidebar", "adsense_slot_post"]

  predicate Distinct(keys: seq<string>)
  {
    forall i, j :: 0 <= i < j < |keys| ==> keys[i] != keys[j]
  }

  /** Each fixed list names every key once, so getByKeys returns exactly one entry per listed key. */
  lemma KeyListsDistinct()
    ensures Distinct(PublicKeys) && Distinct(SeoKeys) && Distinct(AdsenseKeys)
    ensures |PublicKeys| == 7 && |SeoKeys| == 5 && |AdsenseKeys| == 5
  {
  }

  /** getAll(): the key/value pairs, or `[]` when the query throws. */
  function All(table: Table, present: bool): (r: Table)
    ensures present ==> r == table
    ensures !present ==> r == map[]
  {
    if present then table else map[]
  }

  /** `isset($all[$key]) ? $all[$key] : null`: a missing key and a NULL value both give null. */
  function Pick(all: Table, key: string): (r: Value)
    ensures r == Null <==> key !in all || all[key].None?
    ensures r != Null ==> r == Str(all[key].value)
  {
    if key in all && all[key].Some? then Str(all[key].value) else Null
  }

  /** What getByKeys returns for a list of distinct keys: each key, in order, with its value or null. */
  function ByKeys(all: Table, keys: seq<string>): seq<(string, Value)>
  {
    seq(|keys|, i requires 0 <= i < |keys| => (keys[i], Pick(all, keys[i])))
  }

  /** The result lists exactly the requested keys in the requested order; nothing stored elsewhere leaks in. */
  lemma ByKeysShape(all: Table, keys: seq<string>)
    ensures |ByKeys(all, keys)| == |keys|
    ensures forall i :: 0 <= i < |keys| ==> ByKeys(all, keys)[i].0 == keys[i]
    ensures forall i :: 0 <= i < |keys| ==> ByKeys(all, keys)[i].1 == Pick(all, keys[i])
    ensures forall extra :: extra !in keys ==> ByKeys(all, keys) == ByKeys(all[extra := None], keys)
  {
  }

  /**
   * The value set() writes: arrays and objects JSON-encoded, null as SQL
   * NULL, any other scalar as PDO binds it, as its string form.
   */
  function SetForm(value: Value, enc: Value -> string): (r: Option<string>)
    ensures IsArray(value) ==> r == Some(enc(value))
    ensures r.None? <==> value.Null?
  {
    if IsArray(value) then Some(enc(value))
    else if value.Null? then None
    else ToPhpString(value)
  }

  /** Reading a key back after set(): a string as stored, null as null, an array as its JSON text. */
  lemma SetThenPick(all: Table, key: string, value: Value, enc: Value -> string)
    ensures value.Str? ==> Pick(all[key := SetForm(value, enc)], key) == value
    ensures value.Null? ==> Pick(all[key := SetForm(value, enc)], key) == Null
    ensures IsArray(value) ==> Pick(all[key := SetForm(value, enc)], key) == Str(enc(value))
    ensures forall k :: k != key ==> Pick(all[key := SetForm(value, enc)], k) == Pick(all, k)
  {
  }

  /** What set() does: return the value of `execute`, or let the PDOException it raises escape. */
  datatype SetOutcome = Returned(ok: bool) | Raised

  class SettingsStore {
    var table: Table
    var present: bool

    predicate Valid()
      reads this
    {
      !present ==> table == map[]
    }

    constructor (present: bool)
      ensures Valid() && this.present == present && table == map[]
    {
      table := map[];
      this.present := present;
    }

    /** getAll(). */
    method GetAll() returns (r: Table)
      ensures r == All(table, present)
    {
      if !present {
        return map[];
      }
      r := table;
    }

    /** getByKeys($keys): the foreach filling `$result[$key]`. */
    method GetByKeys(keys: seq<string>) returns (r: seq<(string, Value)>)
      requires Distinct(keys)
      ensures r == ByKeys(All(table, present), keys)
    {
      var all := GetAll();
      r := [];
      var i := 0;
      while i < |keys|
        invariant 0 <= i <= |keys|
        invariant r == ByKeys(all, keys[..i])
      {
        r := r + [(keys[i], Pick(all, keys[i]))];
        i := i + 1;
        assert keys[..i] == keys[..i - 1] + [keys[i - 1]];
      }
      assert keys[..i] == keys;
    }

    method GetPublic() returns (r: seq<(string, Value)>)
      ensures r == ByKeys(All(table, present), PublicKeys)
    {
      KeyListsDistinct();
      r := GetByKeys(PublicKeys);
    }

    method GetSeo() returns (r: seq<(string, Value)>)
      ensures r == ByKeys(All(table, present), SeoKeys)
    {
      KeyListsDistinct();
      r := GetByKeys(SeoKeys);
    }

    method GetAdsense() returns (r: seq<(string, Value)>)
      ensures r == ByKeys(All(table, present), AdsenseKeys)
    {
      KeyListsDistinct();
      r := GetByKeys(AdsenseKeys);
    }

    /**
     * set($key, $value): an upsert, after which `execute` returns true. On a
     * missing table the statement raises a PDOException (the connection runs
     * in ERRMODE_EXCEPTION and set() has no catch), which reaches the caller
     * with nothing changed.
     */
    method Set(key: string, value: Value, enc: Value -> string) returns (r: SetOutcome)
      requires Valid()
      modifies this
      ensures Valid() && present == old(present)
      ensures old(present) <==> r == Returned(true)
      ensures !old(present) <==> r == Raised
      ensures old(present) ==> table == old(table)[key := SetForm(value, enc)]
      ensures !old(present) ==> table == old(table)
    {
      if !present {
        return Raised;
      }
      var stored := SetForm(value, enc);
      table := table[key := stored];
      r := Returned(true);
    }
  }
}
