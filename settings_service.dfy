/** Site settings: key/value records with an optional description, written by upsert. */
module Settings {
  import opened Wrappers
  import opened Strings
  import opened Queries

  datatype Setting = Setting(key: string, value: Option<string>, description: Option<string>, updatedAt: int)

  datatype SettingRequest = SettingRequest(key: string, value: Option<string>, description: Option<string>)

  /** No two settings share a key. */
  ghost predicate KeysUnique(m: map<int, Setting>) {
    forall a, b | a in m && b in m :: m[a].key == m[b].key ==> a == b
  }

  /** `FirstOrDefault(s => s.Key == key)`: the first row with that key, in id order. */
  function IdOfKey(m: map<int, Setting>, key: string): (r: Option<int>)
    ensures r.Some? ==> r.value in m && m[r.value].key == key
    ensures r.None? <==> forall id | id in m :: m[id].key != key
    ensures r.Some? && KeysUnique(m) ==> forall id | id in m && m[id].key == key :: id == r.value
  {
    if forall id | id in m :: m[id].key != key then None
    else
      var ids := set id | id in m && m[id].key == key;
      assert ids != {} by {
        var w :| w in m && m[w].key == key;
        assert w in ids;
      }
      Some(MinOf(ids))
  }

  /** The store after `UpsertSettingAsync`: the existing row for the key gets the new value and
      description, or a new row is added under `next`. */
  function Upserted(m: map<int, Setting>, next: int, req: SettingRequest, now: int): (map<int, Setting>, int) {
    match IdOfKey(m, req.key)
    case Some(id) => (m[id := m[id].(value := req.value, description := req.description, updatedAt := now)], next)
    case None => (m[next := Setting(req.key, req.value, req.description, now)], next + 1)
  }

  /** One entry of `UpdateMultipleSettingsAsync`: the value is set and the description kept, or
      a new row without description is added. */
  function ValueSet(m: map<int, Setting>, next: int, key: string, value: string, now: int): (map<int, Setting>, int) {
    match IdOfKey(m, key)
    case Some(id) => (m[id := m[id].(value := Some(value), updatedAt := now)], next)
    case None => (m[next := Setting(key, Some(value), None, now)], next + 1)
  }

  /** The entries applied in order. */
  function ValuesSet(m: map<int, Setting>, next: int, entries: seq<(string, string)>, now: int): (map<int, Setting>, int)
  {
    if entries == [] then (m, next)
    else
      var (m1, n1) := ValuesSet(m, next, entries[..|entries| - 1], now);
      ValueSet(m1, n1, entries[|entries| - 1].0, entries[|entries| - 1].1, now)
  }

  /** Ids below `next`, so that `next` is fresh. */
  ghost predicate IdsBelow(m: map<int, Setting>, next: int) {
    0 < next && forall id | id in m :: 0 < id < next
  }

  /** After an upsert exactly one setting has the key, holding the requested value and
      description; every other setting is unchanged and the keys stay unique. */
  lemma UpsertSpec(m: map<int, Setting>, next: int, req: SettingRequest, now: int)
    requires IdsBelow(m, next) && KeysUnique(m)
    ensures var (m', next') := Upserted(m, next, req, now);
            && IdsBelow(m', next') && KeysUnique(m')
            && (exists id :: id in m' && m'[id].key == req.key && m'[id].value == req.value
                             && m'[id].description == req.description
                             && forall j | j in m' && m'[j].key == req.key :: j == id)
            && (forall id | id in m && m[id].key != req.key :: id in m' && m'[id] == m[id])
            && (forall id | id in m' && m'[id].key != req.key :: id in m)
  {
    var (m', next') := Upserted(m, next, req, now);
    match IdOfKey(m, req.key)
    case Some(id) =>
      assert m'[id].key == req.key;
    case None =>
      assert m'[next].key == req.key;
  }

  /** Repeating an upsert changes no key, value or description. */
  lemma UpsertIdempotent(m: map<int, Setting>, next: int, req: SettingRequest, now: int, later: int)
    requires IdsBelow(m, next) && KeysUnique(m)
    ensures var (m1, n1) := Upserted(m, next, req, now);
            var (m2, n2) := Upserted(m1, n1, req, later);
            && n2 == n1 && m2.Keys == m1.Keys
            && forall id | id in m1 :: m2[id] == m1[id].(updatedAt := m2[id].updatedAt)
  {
    var (m1, n1) := Upserted(m, next, req, now);
    UpsertSpec(m, next, req, now);
    var id :| id in m1 && m1[id].key == req.key && m1[id].value == req.value
              && m1[id].description == req.description
              && forall j | j in m1 && m1[j].key == req.key :: j == id;
    assert IdOfKey(m1, req.key) == Some(id);
  }

  /** Keys listed at most once, as in a dictionary. */
  predicate DistinctKeys(entries: seq<(string, string)>) {
    forall i, j | 0 <= i < j < |entries| :: entries[i].0 != entries[j].0
  }

  /** One entry sets the value of exactly one setting with its key and keeps that setting's
      description; every other setting is unchanged. */
  lemma ValueSetSpec(m: map<int, Setting>, next: int, key: string, value: string, now: int)
    requires IdsBelow(m, next) && KeysUnique(m)
    ensures var (m', next') := ValueSet(m, next, key, value, now);
            && IdsBelow(m', next') && KeysUnique(m')
            && (exists id :: id in m' && m'[id].key == key && m'[id].value == Some(value)
                             && m'[id].description == (if id in m then m[id].description else None)
                             && forall j | j in m' && m'[j].key == key :: j == id)
            && (forall id | id in m && m[id].key != key :: id in m' && m'[id] == m[id])
            && (forall id | id in m' && m'[id].key != key :: id in m)
            && m.Keys <= m'.Keys
  {
    var (m', next') := ValueSet(m, next, key, value, now);
    match IdOfKey(m, key)
    case Some(id) =>
      assert m'[id].key == key;
    case None =>
      assert m'[next].key == key;
  }

  /** `UpdateMultipleSettingsAsync`: every listed key ends up with exactly one setting, holding
      the listed value; no description changes and new settings have none; settings of unlisted
      keys are unchanged. */
  lemma ValuesSetSpec(m: map<int, Setting>, next: int, entries: seq<(string, string)>, now: int)
    requires IdsBelow(m, next) && KeysUnique(m) && DistinctKeys(entries)
    ensures var (m', next') := ValuesSet(m, next, entries, now);
            && IdsBelow(m', next') && KeysUnique(m') && m.Keys <= m'.Keys
            && (forall i | 0 <= i < |entries| :: HasValue(m', entries[i].0, entries[i].1))
            && (forall id | id in m' :: m'[id].description == (if id in m then m[id].description else None))
            && (forall id | id in m && (forall i | 0 <= i < |entries| :: entries[i].0 != m[id].key) ::
                  id in m' && m'[id] == m[id])
  {
    ValuesSetIds(m, next, entries, now);
    ValuesListed(m, next, entries, now);
    DescriptionsKept(m, next, entries, now);
    UnlistedKept(m, next, entries, now);
  }

  /** Some setting has the key and holds the value. */
  predicate HasValue(m: map<int, Setting>, key: string, value: string) {
    exists id :: id in m && m[id].key == key && m[id].value == Some(value)
  }

  lemma {:induction false} ValuesListed(m: map<int, Setting>, next: int, entries: seq<(string, string)>, now: int)
    requires IdsBelow(m, next) && KeysUnique(m) && DistinctKeys(entries)
    ensures forall i | 0 <= i < |entries| ::
              HasValue(ValuesSet(m, next, entries, now).0, entries[i].0, entries[i].1)
  {
    if entries != [] {
      var pre := entries[..|entries| - 1];
      var key := entries[|entries| - 1].0;
      var value := entries[|entries| - 1].1;
      assert DistinctKeys(pre);
      ValuesListed(m, next, pre, now);
      ValuesSetIds(m, next, pre, now);
      var r1 := ValuesSet(m, next, pre, now);
      var m1 := r1.0;
      ValueSetSpec(m1, r1.1, key, value, now);
      var m2 := ValueSet(m1, r1.1, key, value, now).0;
      assert m2 == ValuesSet(m, next, entries, now).0;
      forall i | 0 <= i < |entries|
        ensures HasValue(m2, entries[i].0, entries[i].1)
      {
        if i < |pre| {
          assert entries[i] == pre[i];
          assert HasValue(m1, pre[i].0, pre[i].1);
          var id :| id in m1 && m1[id].key == pre[i].0 && m1[id].value == Some(pre[i].1);
          assert pre[i].0 != key;
          assert id in m2 && m2[id] == m1[id];
        }
      }
    }
  }

  lemma {:induction false} DescriptionsKept(m: map<int, Setting>, next: int, entries: seq<(string, string)>, now: int)
    requires IdsBelow(m, next) && KeysUnique(m)
    ensures var m' := ValuesSet(m, next, entries, now).0;
            forall id | id in m' :: m'[id].description == (if id in m then m[id].description else None)
  {
    if entries != [] {
      var pre := entries[..|entries| - 1];
      DescriptionsKept(m, next, pre, now);
      ValuesSetIds(m, next, pre, now);
    }
  }

  lemma {:induction false} UnlistedKept(m: map<int, Setting>, next: int, entries: seq<(string, string)>, now: int)
    requires IdsBelow(m, next) && KeysUnique(m)
    ensures var m' := ValuesSet(m, next, entries, now).0;
            forall id | id in m && (forall i | 0 <= i < |entries| :: entries[i].0 != m[id].key) ::
              id in m' && m'[id] == m[id]
  {
    ValuesSetIds(m, next, entries, now);
    if entries != [] {
      var pre := entries[..|entries| - 1];
      UnlistedKept(m, next, pre, now);
      ValuesSetIds(m, next, pre, now);
      var (m1, n1) := ValuesSet(m, next, pre, now);
      ValueSetSpec(m1, n1, entries[|entries| - 1].0, entries[|entries| - 1].1, now);
      forall id | id in m && (forall i | 0 <= i < |entries| :: entries[i].0 != m[id].key)
        ensures id in ValuesSet(m, next, entries, now).0 && ValuesSet(m, next, entries, now).0[id] == m[id]
      {
        assert forall i | 0 <= i < |pre| :: pre[i].0 != m[id].key by {
          forall i | 0 <= i < |pre| ensures pre[i].0 != m[id].key {
            assert pre[i] == entries[i];
          }
        }
        assert entries[|entries| - 1].0 != m[id].key;
      }
    }
  }

  lemma {:induction false} ValuesSetIds(m: map<int, Setting>, next: int, entries: seq<(string, string)>, now: int)
    requires IdsBelow(m, next) && KeysUnique(m)
    ensures var (m', next') := ValuesSet(m, next, entries, now);
            IdsBelow(m', next') && KeysUnique(m') && m.Keys <= m'.Keys
  {
    if entries != [] {
      var pre := entries[..|entries| - 1];
      ValuesSetIds(m, next, pre, now);
      var (m1, n1) := ValuesSet(m, next, pre, now);
      ValueSetSpec(m1, n1, entries[|entries| - 1].0, entries[|entries| - 1].1, now);
    }
  }

  /** Settings ordered by key, case-folded. */
  predicate KeyLe(a: (int, Setting), b: (int, Setting)) {
    LexLe(Lower(a.1.key), Lower(b.1.key))
  }

  lemma KeyLeTotal()
    ensures TotalPreorder(KeyLe)
  {
    forall a: (int, Setting), b: (int, Setting) ensures KeyLe(a, b) || KeyLe(b, a) {
      LexLeTotal(Lower(a.1.key), Lower(b.1.key));
    }
    forall a: (int, Setting), b: (int, Setting), c: (int, Setting) | KeyLe(a, b) && KeyLe(b, c) ensures KeyLe(a, c) {
      LexLeTrans(Lower(a.1.key), Lower(b.1.key), Lower(c.1.key));
    }
  }

  function AnySetting(row: (int, Setting)): bool { true }

  /** `GetAllSettingsAsync`: every setting, ordered by key. */
  function AllSettings(m: map<int, Setting>): seq<(int, Setting)> {
    Query(m, AnySetting, KeyLe)
  }

  /** Every setting is listed exactly once, with its own record, in key order. */
  lemma AllSettingsSpec(m: map<int, Setting>)
    ensures var r := AllSettings(m);
            && (forall i :: 0 <= i < |r| ==> r[i].0 in m && r[i].1 == m[r[i].0])
            && (forall i, j :: 0 <= i < j < |r| ==> LexLe(Lower(r[i].1.key), Lower(r[j].1.key)))
            && (forall k :: k in m ==> (k, m[k]) in r)
            && Distinct(r)
  {
    var r := AllSettings(m);
    assert forall i :: 0 <= i < |r| ==> r[i].0 in m && r[i].1 == m[r[i].0] by {
      QuerySound(m, AnySetting, KeyLe);
    }
    forall k | k in m ensures (k, m[k]) in r {
      assert AnySetting((k, m[k]));
      QueryComplete(m, AnySetting, KeyLe);
    }
    assert Distinct(r) by {
      QueryDistinct(m, AnySetting, KeyLe);
    }
    forall i, j | 0 <= i < j < |r| ensures LexLe(Lower(r[i].1.key), Lower(r[j].1.key)) {
      KeyLeTotal();
      QuerySorted(m, AnySetting, KeyLe);
      assert KeyLe(r[i], r[j]);
    }
  }

  class SettingsService {
    var settings: map<int, Setting>
    var nextId: int

    ghost predicate Valid()
      reads this
    {
      IdsBelow(settings, nextId) && KeysUnique(settings)
    }

    constructor ()
      ensures Valid() && settings == map[]
    {
      settings := map[];
      nextId := 1;
    }

    function GetAllSettings(): seq<(int, Setting)>
      reads this
    {
      AllSettings(settings)
    }

    /** `null` for an absent key; otherwise the one setting with that key. */
    function GetSettingByKey(key: string): (r: Option<(int, Setting)>)
      reads this
      ensures r.None? <==> forall id | id in settings :: settings[id].key != key
      ensures r.Some? ==> r.value.0 in settings && settings[r.value.0] == r.value.1 && r.value.1.key == key
    {
      match IdOfKey(settings, key)
      case None => None
      case Some(id) => Some((id, settings[id]))
    }

    method UpsertSetting(req: SettingRequest, now: int) returns (id: int, s: Setting)
      requires Valid()
      modifies this
      ensures Valid()
      ensures (settings, nextId) == Upserted(old(settings), old(nextId), req, now)
      ensures id in settings && settings[id] == s
      ensures s.key == req.key && s.value == req.value && s.description == req.description
    {
      UpsertSpec(settings, nextId, req, now);
      match IdOfKey(settings, req.key)
      case Some(existing) =>
        id := existing;
        s := settings[id].(value := req.value, description := req.description, updatedAt := now);
        settings := settings[id := s];
      case None =>
        id := nextId;
        s := Setting(req.key, req.value, req.description, now);
        settings := settings[id := s];
        nextId := nextId + 1;
    }

    method UpdateMultipleSettings(entries: seq<(string, string)>, now: int)
      requires Valid() && DistinctKeys(entries)
      modifies this
      ensures Valid()
      ensures (settings, nextId) == ValuesSet(old(settings), old(nextId), entries, now)
    {
      var i := 0;
      while i < |entries|
        invariant 0 <= i <= |entries|
        invariant (settings, nextId) == ValuesSet(old(settings), old(nextId), entries[..i], now)
        invariant Valid()
      {
        assert entries[..i + 1][..i] == entries[..i];
        var (key, value) := entries[i];
        ValueSetSpec(settings, nextId, key, value, now);
        match IdOfKey(settings, key) {
          case Some(id) =>
            settings := settings[id := settings[id].(value := Some(value), updatedAt := now)];
          case None =>
            settings := settings[nextId := Setting(key, Some(value), None, now)];
            nextId := nextId + 1;
        }
        i := i + 1;
      }
      assert entries[..|entries|] == entries;
    }

    method DeleteSetting(key: string) returns (r: Outcome)
      requires Valid()
      modifies this
      ensures Valid()
      ensures r == Fail(NotFound) <==> forall id | id in old(settings) :: old(settings)[id].key != key
      ensures r.Fail? ==> unchanged(this)
      ensures r.Pass? ==> exists id :: id in old(settings) && old(settings)[id].key == key && settings == old(settings) - {id}
      ensures forall id | id in settings :: settings[id].key != key
      ensures nextId == old(nextId)
    {
      match IdOfKey(settings, key)
      case None =>
        return Fail(NotFound);
      case Some(id) =>
        settings := settings - {id};
        r := Pass;
    }
  }
}
