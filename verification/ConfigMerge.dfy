/**
 Saving provider configuration: an incoming JSON tree is merged into the stored one.  Objects merge key by key, the
 credential lists (`api_keys`, `wallets`, `credentials`) merge by credential id, everything else is replaced, and a value
 that looks like the mask of the stored one is skipped.
 */
module ConfigMerge {
  import opened Basics
  import opened Credentials

  predicate CredentialKey(key: string) {
    key == "api_keys" || key == "wallets" || key == "credentials"
  }

  predicate AllObjects(items: seq<Json>) {
    forall i | 0 <= i < |items| :: items[i].Obj?
  }

  function ItemsOf(items: seq<Json>): seq<Fields>
    requires AllObjects(items)
  {
    seq(|items|, i requires 0 <= i < |items| => items[i].fields)
  }

  function Objects(items: seq<Fields>): (r: seq<Json>)
    ensures AllObjects(r) && ItemsOf(r) == items
  {
    seq(|items|, i requires 0 <= i < |items| => Obj(items[i]))
  }

  lemma ObjectsOfItems(items: seq<Json>)
    requires AllObjects(items)
    ensures Objects(ItemsOf(items)) == items
  {
  }

  /** The merge raises when a credential list it has to match holds something that is not an object. */
  predicate Mergeable(e: Fields, n: Json)
    requires n.Obj?
    decreases n, 0
  {
    forall key | key in n.fields :: FieldMergeable(key, Field(e, key), n.fields[key])
  }

  predicate FieldMergeable(key: string, stored: Option<Json>, v: Json)
    decreases v, 1
  {
    stored.Some? ==>
      && (v.Obj? && stored.value.Obj? ==> Mergeable(stored.value.fields, v))
      && (v.Arr? && stored.value.Arr? && CredentialKey(key) ==> AllObjects(stored.value.items) && AllObjects(v.items))
  }

  /** What an incoming value leaves under its key; `None` is an absent key. */
  function MergeField(key: string, stored: Option<Json>, v: Json): Option<Json>
    requires FieldMergeable(key, stored, v)
    decreases v, 1
  {
    if v.Obj? && stored.Some? && stored.value.Obj? then Some(Obj(Merge(stored.value.fields, v)))
    else if v.Arr? && stored.Some? && stored.value.Arr? then
      Some(if CredentialKey(key) then Arr(Objects(MergeCredentials(ItemsOf(stored.value.items), ItemsOf(v.items)))) else v)
    else if v == Str(FULL_MASK) || MaskOf(v, stored) then stored
    else Some(v)
  }

  function MergedField(e: Fields, n: Json, key: string): Option<Json>
    requires n.Obj? && Mergeable(e, n)
    decreases n, 0, 0
  {
    if key in n.fields then assert FieldMergeable(key, Field(e, key), n.fields[key]); MergeField(key, Field(e, key), n.fields[key])
    else Field(e, key)
  }

  function Merge(e: Fields, n: Json): Fields
    requires n.Obj? && Mergeable(e, n)
    decreases n, 0, 1
  {
    map key | key in e.Keys + n.fields.Keys && MergedField(e, n, key).Some? :: MergedField(e, n, key).value
  }

  lemma MergeFieldOf(e: Fields, n: Json, key: string)
    requires n.Obj? && Mergeable(e, n)
    ensures Field(Merge(e, n), key) == MergedField(e, n, key)
  {
    hide MergeField, FieldMergeable;
  }

  // ---------------------------------------------------------------------------------------
  // Idempotence
  // ---------------------------------------------------------------------------------------

  /** Every credential list that an object path reaches holds objects with distinct, robust ids. */
  predicate Sound(n: Json)
    requires n.Obj?
    decreases n, 0
  {
    forall key | key in n.fields :: SoundField(key, n.fields[key])
  }

  predicate SoundField(key: string, v: Json)
    decreases v, 1
  {
    && (v.Obj? ==> Sound(v))
    && (v.Arr? && CredentialKey(key) ==> AllObjects(v.items) && UniqueIds(ItemsOf(v.items)) && AllRobust(ItemsOf(v.items)))
  }

  /** Saving the same tree again succeeds and changes nothing. */
  ghost predicate Idempotent(e: Fields, n: Json)
    requires n.Obj? && Mergeable(e, n)
  {
    Mergeable(Merge(e, n), n) && Merge(Merge(e, n), n) == Merge(e, n)
  }

  ghost predicate FieldIdempotent(key: string, stored: Option<Json>, v: Json)
    requires FieldMergeable(key, stored, v)
  {
    var r := MergeField(key, stored, v);
    FieldMergeable(key, r, v) && MergeField(key, r, v) == r
  }

  lemma FieldsIdempotent(e: Fields, n: Json)
    requires n.Obj? && Mergeable(e, n)
    requires forall key | key in n.fields :: FieldMergeable(key, Field(e, key), n.fields[key]) && FieldIdempotent(key, Field(e, key), n.fields[key])
    ensures Idempotent(e, n)
  {
    var r := Merge(e, n);
    hide FieldMergeable, MergeField, Merge;
    forall key | key in n.fields
      ensures FieldMergeable(key, Field(r, key), n.fields[key])
    {
      MergeFieldOf(e, n, key);
      assert FieldIdempotent(key, Field(e, key), n.fields[key]);
    }
    forall key
      ensures Field(Merge(r, n), key) == Field(r, key)
    {
      MergeFieldOf(e, n, key);
      MergeFieldOf(r, n, key);
      if key in n.fields { assert FieldIdempotent(key, Field(e, key), n.fields[key]); }
    }
    SameFields(Merge(r, n), r);
  }

  lemma {:induction false} SelfMerge(n: Json)
    requires n.Obj? && Sound(n)
    ensures Mergeable(n.fields, n) && Merge(n.fields, n) == n.fields
    decreases n, 0
  {
    forall key | key in n.fields
      ensures FieldMergeable(key, Some(n.fields[key]), n.fields[key])
      ensures MergeField(key, Some(n.fields[key]), n.fields[key]) == Some(n.fields[key])
    {
      assert SoundField(key, n.fields[key]);
      SelfMergeField(key, n.fields[key]);
      hide MergeField, FieldMergeable, SoundField;
    }
    hide MergeField, FieldMergeable, SoundField, Merge, Sound;
    forall key
      ensures Field(Merge(n.fields, n), key) == Field(n.fields, key)
    {
      MergeFieldOf(n.fields, n, key);
    }
    SameFields(Merge(n.fields, n), n.fields);
  }

  lemma {:induction false} SelfMergeField(key: string, v: Json)
    requires SoundField(key, v)
    ensures FieldMergeable(key, Some(v), v) && MergeField(key, Some(v), v) == Some(v)
    decreases v, 1
  {
    if v.Obj? {
      SelfMerge(v);
    } else if v.Arr? && CredentialKey(key) {
      CredentialsSelfMerge(ItemsOf(v.items));
      ObjectsOfItems(v.items);
      hide MergeCredentials, UniqueIds, AllRobust;
    }
  }

  lemma {:induction false} SoundIdempotent(e: Fields, n: Json)
    requires n.Obj? && Mergeable(e, n) && Sound(n)
    ensures Idempotent(e, n)
    decreases n, 0
  {
    forall key | key in n.fields
      ensures FieldMergeable(key, Field(e, key), n.fields[key]) && FieldIdempotent(key, Field(e, key), n.fields[key])
    {
      assert SoundField(key, n.fields[key]);
      assert FieldMergeable(key, Field(e, key), n.fields[key]);
      SoundFieldIdempotent(key, Field(e, key), n.fields[key]);
      hide FieldIdempotent, FieldMergeable, SoundField;
    }
    hide FieldIdempotent, FieldMergeable, SoundField, Idempotent;
    FieldsIdempotent(e, n);
  }

  lemma {:induction false} SoundFieldIdempotent(key: string, stored: Option<Json>, v: Json)
    requires FieldMergeable(key, stored, v) && SoundField(key, v)
    ensures FieldIdempotent(key, stored, v)
    decreases v, 1
  {
    if v.Obj? && stored.Some? && stored.value.Obj? {
      SoundIdempotent(stored.value.fields, v);
      hide Merge, Mergeable;
    } else if v.Arr? && stored.Some? && stored.value.Arr? && CredentialKey(key) {
      CredentialsIdempotent(ItemsOf(stored.value.items), ItemsOf(v.items));
      hide MergeCredentials, UniqueIds, AllRobust;
    } else if v.Obj? || v.Arr? {
      SelfMergeField(key, v);
      hide Merge, Mergeable, Sound, MergeCredentials;
    } else {
      hide MergeCredentials, Merge, Mergeable, Sound;
    }
  }

  /** An unsound tree has a stored configuration on which saving it twice differs from saving it once. */
  lemma {:induction false} UnsoundFails(n: Json) returns (e: Fields)
    requires n.Obj? && !Sound(n)
    ensures Mergeable(e, n) && !Idempotent(e, n)
    decreases n, 0
  {
    var key :| key in n.fields && !SoundField(key, n.fields[key]);
    var v := n.fields[key];
    var stored := UnsoundFieldFails(key, v);
    e := if stored.Some? then map[key := stored.value] else map[];
    assert Field(e, key) == stored;
    hide SoundField, FieldMergeable, MergeField, Sound;
    OneFieldFails(e, n, key);
  }

  lemma OneFieldFails(e: Fields, n: Json, key: string)
    requires n.Obj? && key in n.fields && (forall k | k in e :: k == key)
    requires FieldMergeable(key, Field(e, key), n.fields[key]) && !FieldIdempotent(key, Field(e, key), n.fields[key])
    ensures Mergeable(e, n) && !Idempotent(e, n)
  {
    forall k | k in n.fields
      ensures FieldMergeable(k, Field(e, k), n.fields[k])
    {
    }
    var r := Merge(e, n);
    hide FieldMergeable, MergeField, Merge;
    MergeFieldOf(e, n, key);
    if Mergeable(r, n) {
      assert FieldMergeable(key, Field(r, key), n.fields[key]);
      MergeFieldOf(r, n, key);
    }
  }

  lemma {:induction false} UnsoundFieldFails(key: string, v: Json) returns (stored: Option<Json>)
    requires !SoundField(key, v)
    ensures FieldMergeable(key, stored, v) && !FieldIdempotent(key, stored, v)
    decreases v, 1
  {
    if v.Obj? {
      var e := UnsoundFails(v);
      stored := Some(Obj(e));
      hide Merge, Mergeable, Sound;
    } else if !AllObjects(v.items) || !UniqueIds(ItemsOf(v.items)) {
      stored := None;
      if AllObjects(v.items) {
        DuplicatesShrink(ItemsOf(v.items));
        hide MergeCredentials, UniqueIds, AllRobust;
        assert ItemsOf(Objects(MergeCredentials(ItemsOf(v.items), ItemsOf(v.items)))) != ItemsOf(v.items);
      }
    } else {
      var incoming := ItemsOf(v.items);
      var j :| 0 <= j < |incoming| && !Robust(incoming[j]);
      var x := FragileRenames(incoming[j]);
      stored := Some(Arr(Objects([x])));
      RenamedDuplicates(x, incoming, j);
      hide MergeCredentials, UniqueIds, AllRobust, Robust, Id;
      var r := MergeCredentials([x], incoming);
      assert ItemsOf(Objects(MergeCredentials(r, incoming))) != ItemsOf(Objects(r));
    }
  }

  /** Saving the tree a second time succeeds and changes nothing, whether or not a row was there; a first save that raises
      does nothing. */
  ghost predicate SaveIdempotent(row: Option<Fields>, n: Json)
    requires n.Obj?
  {
    if row.None? then Mergeable(n.fields, n) && Merge(n.fields, n) == n.fields
    else Mergeable(row.value, n) ==> Idempotent(row.value, n)
  }

  ghost predicate AlwaysIdempotent(n: Json)
    requires n.Obj?
  {
    forall row :: SaveIdempotent(row, n)
  }

  /** Saving a tree twice is the same as saving it once, whatever is stored, exactly when the tree is sound. */
  lemma IdempotentIff(n: Json)
    requires n.Obj?
    ensures AlwaysIdempotent(n) <==> Sound(n)
  {
    hide Idempotent, Mergeable, Sound;
    if Sound(n) {
      forall row
        ensures SaveIdempotent(row, n)
      {
        if row.None? {
          SelfMerge(n);
        } else if Mergeable(row.value, n) {
          SoundIdempotent(row.value, n);
        }
      }
    } else {
      var e := UnsoundFails(n);
      assert !SaveIdempotent(Some(e), n);
    }
  }

  // ---------------------------------------------------------------------------------------
  // What a merge keeps
  // ---------------------------------------------------------------------------------------

  /** Keys that the tree does not touch are unchanged; every other stored key is still there at every depth, and every
      stored credential id, in the same order. */
  ghost predicate Kept(e: Fields, n: Json, r: Fields)
    requires n.Obj?
    decreases n, 0
  {
    forall key | key in e :: if key in n.fields then KeptField(key, e[key], n.fields[key], Field(r, key)) else Field(r, key) == Some(e[key])
  }

  ghost predicate KeptField(key: string, a: Json, v: Json, r: Option<Json>)
    decreases v, 1
  {
    && r.Some?
    && if v == Str(FULL_MASK) then r.value == a
       else
         && (a.Obj? ==> r.value.Obj? && (v.Obj? ==> Kept(a.fields, v, r.value.fields)))
         && (a.Arr? && CredentialKey(key) ==>
               && r.value.Arr?
               && (AllObjects(a.items) ==> AllObjects(r.value.items) && DistinctIds(ItemsOf(a.items)) <= Ids(ItemsOf(r.value.items))))
  }

  /** The incoming tree puts nothing but an object over a stored object, or a list over a stored credential list. */
  predicate Shaped(e: Fields, n: Json)
    requires n.Obj?
    decreases n, 0
  {
    forall key | key in n.fields :: ShapedField(key, Field(e, key), n.fields[key])
  }

  predicate ShapedField(key: string, stored: Option<Json>, v: Json)
    decreases v, 1
  {
    stored.Some? && v != Str(FULL_MASK) ==>
      && (stored.value.Obj? ==> v.Obj? && Shaped(stored.value.fields, v))
      && (stored.value.Arr? && CredentialKey(key) ==> v.Arr?)
  }

  /** Shaped, and no incoming credential takes a stored one's id away from it. */
  predicate Compatible(e: Fields, n: Json)
    requires n.Obj?
    decreases n, 0
  {
    forall key | key in n.fields :: CompatibleField(key, Field(e, key), n.fields[key])
  }

  predicate CompatibleField(key: string, stored: Option<Json>, v: Json)
    decreases v, 1
  {
    stored.Some? && v != Str(FULL_MASK) ==>
      && (stored.value.Obj? ==> v.Obj? && Compatible(stored.value.fields, v))
      && (stored.value.Arr? && CredentialKey(key) ==>
            v.Arr? && (AllObjects(stored.value.items) && AllObjects(v.items) ==> IdsKept(ItemsOf(stored.value.items), ItemsOf(v.items))))
  }

  /** The merge keeps everything stored if and only if the incoming tree is compatible with it. */
  lemma {:induction false} KeptIff(e: Fields, n: Json)
    requires n.Obj? && Mergeable(e, n)
    ensures Kept(e, n, Merge(e, n)) <==> Compatible(e, n)
    decreases n, 0
  {
    forall key
      ensures key in n.fields && key in e ==>
                (KeptField(key, e[key], n.fields[key], Field(Merge(e, n), key)) <==> CompatibleField(key, Field(e, key), n.fields[key]))
      ensures key !in n.fields && key in e ==> Field(Merge(e, n), key) == Some(e[key])
    {
      MergeFieldOf(e, n, key);
      if key in n.fields && key in e {
        assert FieldMergeable(key, Field(e, key), n.fields[key]);
        KeptFieldIff(key, e[key], n.fields[key]);
      }
      hide MergeField, FieldMergeable, KeptField, CompatibleField, Merge;
    }
    hide MergeField, FieldMergeable, KeptField, Merge, Mergeable;
    assert forall key | key in n.fields && key !in e :: CompatibleField(key, Field(e, key), n.fields[key]);
    hide CompatibleField;
  }

  lemma {:induction false} KeptFieldIff(key: string, a: Json, v: Json)
    requires FieldMergeable(key, Some(a), v)
    ensures KeptField(key, a, v, MergeField(key, Some(a), v)) <==> CompatibleField(key, Some(a), v)
    decreases v, 1
  {
    if v.Obj? && a.Obj? {
      KeptIff(a.fields, v);
      hide Merge, Kept, Compatible, Mergeable;
    } else if v.Arr? && a.Arr? && CredentialKey(key) {
      IdsKeptIff(ItemsOf(a.items), ItemsOf(v.items));
      hide MergeCredentials, DistinctIds, IdsKept;
    } else {
      hide MergeCredentials, Merge, Kept, Compatible, Mergeable, DistinctIds, IdsKept;
    }
  }

  /** Every credential list that an object path reaches holds objects with distinct ids. */
  predicate UniqueLists(n: Json)
    requires n.Obj?
    decreases n, 0
  {
    forall key | key in n.fields :: UniqueField(key, n.fields[key])
  }

  predicate UniqueField(key: string, v: Json)
    decreases v, 1
  {
    (v.Obj? ==> UniqueLists(v)) && (v.Arr? && CredentialKey(key) ==> AllObjects(v.items) && UniqueIds(ItemsOf(v.items)))
  }

  /** Incoming credential lists hold robust items only. */
  predicate RobustLists(n: Json)
    requires n.Obj?
    decreases n, 0
  {
    forall key | key in n.fields :: RobustField(key, n.fields[key])
  }

  predicate RobustField(key: string, v: Json)
    decreases v, 1
  {
    (v.Obj? ==> RobustLists(v)) && (v.Arr? && CredentialKey(key) && AllObjects(v.items) ==> AllRobust(ItemsOf(v.items)))
  }

  lemma {:induction false} RobustCompatible(e: Fields, n: Json)
    requires n.Obj? && Shaped(e, n) && RobustLists(n)
    ensures Compatible(e, n)
    decreases n, 0
  {
    forall key | key in n.fields
      ensures CompatibleField(key, Field(e, key), n.fields[key])
    {
      assert ShapedField(key, Field(e, key), n.fields[key]) && RobustField(key, n.fields[key]);
      RobustFieldCompatible(key, Field(e, key), n.fields[key]);
      hide CompatibleField, ShapedField, RobustField;
    }
  }

  lemma {:induction false} RobustFieldCompatible(key: string, stored: Option<Json>, v: Json)
    requires ShapedField(key, stored, v) && RobustField(key, v)
    ensures CompatibleField(key, stored, v)
    decreases v, 1
  {
    if stored.Some? && stored.value.Obj? && v.Obj? {
      RobustCompatible(stored.value.fields, v);
      hide Shaped, RobustLists, Compatible;
    } else if stored.Some? && stored.value.Arr? && v.Arr? && CredentialKey(key) && AllObjects(stored.value.items) && AllObjects(v.items) {
      RobustKeepsIds(ItemsOf(stored.value.items), ItemsOf(v.items));
      hide IdsKept, AllRobust;
    }
  }

  lemma {:induction false} FragileFails(n: Json) returns (e: Fields)
    requires n.Obj? && UniqueLists(n) && !RobustLists(n)
    ensures Mergeable(e, n) && Shaped(e, n) && !Compatible(e, n)
    decreases n, 0
  {
    var key :| key in n.fields && !RobustField(key, n.fields[key]);
    var v := n.fields[key];
    assert UniqueField(key, v);
    var stored := FragileFieldFails(key, v);
    e := map[key := stored];
    hide RobustField, UniqueField, FieldMergeable, ShapedField, CompatibleField, RobustLists, UniqueLists;
    assert Field(e, key) == Some(stored);
    assert !Compatible(e, n);
    OnlyThisKey(e, n, key);
  }

  lemma OnlyThisKey(e: Fields, n: Json, key: string)
    requires n.Obj? && key in n.fields && (forall k | k in e :: k == key)
    requires FieldMergeable(key, Field(e, key), n.fields[key]) && ShapedField(key, Field(e, key), n.fields[key])
    ensures Mergeable(e, n) && Shaped(e, n)
  {
    forall k | k in n.fields
      ensures FieldMergeable(k, Field(e, k), n.fields[k]) && ShapedField(k, Field(e, k), n.fields[k])
    {
    }
    hide FieldMergeable, ShapedField;
  }

  lemma {:induction false} FragileFieldFails(key: string, v: Json) returns (stored: Json)
    requires UniqueField(key, v) && !RobustField(key, v)
    ensures FieldMergeable(key, Some(stored), v) && ShapedField(key, Some(stored), v) && !CompatibleField(key, Some(stored), v)
    decreases v, 1
  {
    if v.Obj? {
      var e := FragileFails(v);
      stored := Obj(e);
      hide Mergeable, Shaped, Compatible, UniqueLists, RobustLists;
    } else {
      var incoming := ItemsOf(v.items);
      var j :| 0 <= j < |incoming| && !Robust(incoming[j]);
      var x := FragileLoses(incoming, j);
      stored := Arr(Objects([x]));
      hide IdsKept, UniqueIds, AllRobust, Robust;
      assert ItemsOf(stored.items) == [x];
    }
  }

  ghost predicate KeepsAllShaped(n: Json)
    requires n.Obj?
  {
    forall e | Mergeable(e, n) && Shaped(e, n) :: Kept(e, n, Merge(e, n))
  }

  /** A tree with unique ids keeps everything in every stored tree of its shape if and only if its items are robust. */
  lemma KeepsAllShapedIff(n: Json)
    requires n.Obj? && UniqueLists(n)
    ensures KeepsAllShaped(n) <==> RobustLists(n)
  {
    hide Kept, Mergeable, Shaped, RobustLists, Compatible, Merge;
    if RobustLists(n) {
      forall e | Mergeable(e, n) && Shaped(e, n)
        ensures Kept(e, n, Merge(e, n))
      {
        RobustCompatible(e, n);
        KeptIff(e, n);
      }
    } else {
      var e := FragileFails(n);
      KeptIff(e, n);
      assert !Kept(e, n, Merge(e, n));
    }
  }

  // ---------------------------------------------------------------------------------------
  // What a merge writes
  // ---------------------------------------------------------------------------------------

  function Lookup(m: Fields, path: seq<string>): Option<Json>
    decreases |path|
  {
    if path == [] || path[0] !in m then None
    else if |path| == 1 then Some(m[path[0]])
    else if m[path[0]].Obj? then Lookup(m[path[0]].fields, path[1..])
    else None
  }

  /** Nothing but objects on the way to the last key, as the typed request body guarantees. */
  predicate ClearPath(m: Fields, path: seq<string>)
    decreases |path|
  {
    |path| > 1 && path[0] in m ==> m[path[0]].Obj? && ClearPath(m[path[0]].fields, path[1..])
  }

  /** The stored tree holds objects all the way to the last key. */
  predicate Reaches(m: Fields, path: seq<string>)
    decreases |path|
  {
    |path| > 1 ==> path[0] in m && m[path[0]].Obj? && Reaches(m[path[0]].fields, path[1..])
  }

  /** Lists under these keys are merged by credential id. */
  predicate ById(key: string) {
    key == "api_keys" || key == "wallets" || key == "credentials"
  }

  /** A value that a merge skips: the full mask, or the short form of the stored text. */
  ghost predicate Skipped(v: Json, stored: Option<Json>) {
    v.Str? && (v.s == "********" || ShortFormOf(v.s, stored))
  }

  lemma WrittenField(key: string, stored: Option<Json>, v: Json)
    requires FieldMergeable(key, stored, v) && !v.Obj? && !(v.Arr? && ById(key))
    ensures MergeField(key, stored, v) == if Skipped(v, stored) then stored else Some(v)
  {
    if v.Str? { MaskOfIff(v, stored); }
    hide MaskOf, ShortFormOf;
  }

  /** At every path, an incoming value that is neither an object nor a credential list is what is stored afterwards, unless it
      is skipped; below a key that holds no object yet, nothing is skipped. */
  lemma {:induction false} WrittenAt(e: Fields, n: Json, path: seq<string>, v: Json)
    requires n.Obj? && Mergeable(e, n) && Lookup(n.fields, path) == Some(v) && !v.Obj? && !(v.Arr? && ById(path[|path| - 1]))
    ensures Lookup(Merge(e, n), path) == if Reaches(e, path) && Skipped(v, Lookup(e, path)) then Lookup(e, path) else Some(v)
    decreases |path|
  {
    var key := path[0];
    MergeFieldOf(e, n, key);
    assert FieldMergeable(key, Field(e, key), n.fields[key]);
    if |path| == 1 {
      WrittenField(key, Field(e, key), v);
    } else if key in e && e[key].Obj? {
      WrittenAt(e[key].fields, n.fields[key], path[1..], v);
      assert Field(Merge(e, n), key) == Some(Obj(Merge(e[key].fields, n.fields[key])));
    } else {
      assert Field(Merge(e, n), key) == Some(n.fields[key]);
    }
    hide Merge, Mergeable, Skipped, MergeField, FieldMergeable;
  }

  /** A path that the incoming tree does not set keeps what is stored there. */
  lemma {:induction false} UntouchedAt(e: Fields, n: Json, path: seq<string>)
    requires n.Obj? && Mergeable(e, n) && path != [] && ClearPath(n.fields, path) && Lookup(n.fields, path) == None
    ensures Lookup(Merge(e, n), path) == Lookup(e, path)
    decreases |path|
  {
    var key := path[0];
    MergeFieldOf(e, n, key);
    if key in n.fields {
      assert FieldMergeable(key, Field(e, key), n.fields[key]);
      if key in e && e[key].Obj? {
        UntouchedAt(e[key].fields, n.fields[key], path[1..]);
        assert Field(Merge(e, n), key) == Some(Obj(Merge(e[key].fields, n.fields[key])));
      } else {
        assert Field(Merge(e, n), key) == Some(n.fields[key]);
      }
    }
    hide Merge, Mergeable, MergeField, FieldMergeable;
  }

  /** Two credential lists at one path are merged by id. */
  lemma {:induction false} ListsMergedAt(e: Fields, n: Json, path: seq<string>, stored: seq<Json>, came: seq<Json>)
    requires n.Obj? && Mergeable(e, n) && Lookup(e, path) == Some(Arr(stored)) && Lookup(n.fields, path) == Some(Arr(came))
    requires ById(path[|path| - 1])
    ensures AllObjects(stored) && AllObjects(came)
    ensures Lookup(Merge(e, n), path) == Some(Arr(Objects(MergeCredentials(ItemsOf(stored), ItemsOf(came)))))
    decreases |path|
  {
    var key := path[0];
    MergeFieldOf(e, n, key);
    assert FieldMergeable(key, Field(e, key), n.fields[key]);
    if |path| > 1 {
      ListsMergedAt(e[key].fields, n.fields[key], path[1..], stored, came);
      assert Field(Merge(e, n), key) == Some(Obj(Merge(e[key].fields, n.fields[key])));
    }
    hide Merge, Mergeable, MergeCredentials;
  }

  // ---------------------------------------------------------------------------------------
  // Saves
  // ---------------------------------------------------------------------------------------

  /** `save_config`: the first save stores the tree as it is; a merge that raises leaves the row alone. */
  function Saved(row: Option<Fields>, n: Json): Option<Fields>
    requires n.Obj?
  {
    if row.None? then Some(n.fields)
    else if Mergeable(row.value, n) then Some(Merge(row.value, n))
    else row
  }

  ghost predicate ListHas(items: seq<Json>, id: string) {
    exists i | 0 <= i < |items| :: items[i].Obj? && Id(items[i].fields) == id
  }

  /** A credential with the given id is stored in the credential list at the end of the path. */
  ghost predicate HasCredential(m: Fields, path: seq<string>, id: string)
    decreases |path|
  {
    && path != [] && path[0] in m
    && if |path| == 1 then CredentialKey(path[0]) && m[path[0]].Arr? && ListHas(m[path[0]].items, id)
       else m[path[0]].Obj? && HasCredential(m[path[0]].fields, path[1..], id)
  }

  /** The tree puts nothing but objects, and at its end nothing but a list, on the path, and some slot of the two lists
      spells the id. */
  ghost predicate SafeFor(e: Fields, n: Json, path: seq<string>, id: string)
    requires n.Obj?
    decreases |path|
  {
    path != [] && path[0] in e && path[0] in n.fields && n.fields[path[0]] != Str(FULL_MASK) ==>
      var a, v := e[path[0]], n.fields[path[0]];
      if |path| == 1 then
        && v.Arr?
        && (a.Arr? && AllObjects(a.items) && AllObjects(v.items) ==> id in SpelledIds(ItemsOf(a.items), ItemsOf(v.items)))
      else v.Obj? && (a.Obj? ==> SafeFor(a.fields, v, path[1..], id))
  }

  lemma StoredIsIndexed(items: seq<Json>, id: string)
    requires AllObjects(items) && ListHas(items, id)
    ensures id in Index(ItemsOf(items)).items
  {
    var i :| 0 <= i < |items| && items[i].Obj? && Id(items[i].fields) == id;
    EveryIdDistinct(ItemsOf(items), i);
    IndexValid(ItemsOf(items));
    hide Id, Index;
  }

  lemma MergedHasIff(stored: seq<Fields>, incoming: seq<Fields>, id: string)
    ensures ListHas(Objects(MergeCredentials(stored, incoming)), id) <==> id in SpelledIds(stored, incoming)
  {
    MergedIds(stored, incoming);
    hide MergeCredentials, SpelledIds, Id;
    var r := MergeCredentials(stored, incoming);
    forall k | 0 <= k < |r|
      ensures Objects(r)[k] == Obj(r[k]) && Ids(r)[k] == Id(r[k])
    {
    }
  }

  /** A merge keeps a stored credential if and only if it is safe for it. */
  lemma {:induction false} CredentialKeptIff(e: Fields, n: Json, path: seq<string>, id: string)
    requires n.Obj? && Mergeable(e, n) && HasCredential(e, path, id)
    ensures HasCredential(Merge(e, n), path, id) <==> SafeFor(e, n, path, id)
    decreases |path|
  {
    var key := path[0];
    MergeFieldOf(e, n, key);
    hide Merge;
    if key in n.fields {
      var v := n.fields[key];
      assert FieldMergeable(key, Field(e, key), v);
      hide Mergeable;
      if v == Str(FULL_MASK) {
        assert Field(Merge(e, n), key) == Field(e, key);
      } else if |path| == 1 && v.Arr? {
        MergedHasIff(ItemsOf(e[key].items), ItemsOf(v.items), id);
        assert Field(Merge(e, n), key) == Some(Arr(Objects(MergeCredentials(ItemsOf(e[key].items), ItemsOf(v.items)))));
        hide ListHas, MergeCredentials, SpelledIds;
      } else if |path| > 1 && v.Obj? {
        CredentialKeptIff(e[key].fields, v, path[1..], id);
        assert Field(Merge(e, n), key) == Some(Obj(Merge(e[key].fields, v)));
      } else {
        assert Field(Merge(e, n), key) == Some(v);
      }
    } else {
      assert Field(Merge(e, n), key) == Field(e, key);
    }
  }

  ghost function AfterSaves(row: Option<Fields>, saves: seq<Json>): Option<Fields>
    requires forall i | 0 <= i < |saves| :: saves[i].Obj?
    decreases |saves|
  {
    if saves == [] then row else AfterSaves(Saved(row, saves[0]), saves[1..])
  }

  /** Each save that does not raise is safe for the credential as it is stored by then. */
  ghost predicate SafeSaves(row: Option<Fields>, saves: seq<Json>, path: seq<string>, id: string)
    requires forall i | 0 <= i < |saves| :: saves[i].Obj?
    decreases |saves|
  {
    saves != [] ==>
      && (row.Some? && Mergeable(row.value, saves[0]) ==> SafeFor(row.value, saves[0], path, id))
      && SafeSaves(Saved(row, saves[0]), saves[1..], path, id)
  }

  ghost predicate RowHas(row: Option<Fields>, path: seq<string>, id: string) {
    row.Some? && HasCredential(row.value, path, id)
  }

  /** The credential is stored now and after every one of the saves. */
  ghost predicate StaysStored(row: Option<Fields>, saves: seq<Json>, path: seq<string>, id: string)
    requires forall i | 0 <= i < |saves| :: saves[i].Obj?
  {
    forall k | 0 <= k <= |saves| :: RowHas(AfterSaves(row, saves[..k]), path, id)
  }

  lemma StaysStoredOnce(row: Option<Fields>, saves: seq<Json>, path: seq<string>, id: string)
    requires saves != [] && forall i | 0 <= i < |saves| :: saves[i].Obj?
    ensures StaysStored(row, saves, path, id) <==> RowHas(row, path, id) && StaysStored(Saved(row, saves[0]), saves[1..], path, id)
  {
    var next := Saved(row, saves[0]);
    assert saves[..0] == [];
    forall k | 0 <= k < |saves|
      ensures AfterSaves(row, saves[..k + 1]) == AfterSaves(next, saves[1..][..k])
    {
      assert saves[..k + 1][0] == saves[0] && saves[..k + 1][1..] == saves[1..][..k];
    }
    hide AfterSaves, Saved, RowHas;
    if RowHas(row, path, id) && StaysStored(next, saves[1..], path, id) {
      forall k | 0 <= k <= |saves|
        ensures RowHas(AfterSaves(row, saves[..k]), path, id)
      {
        if k > 0 { assert RowHas(AfterSaves(next, saves[1..][..k - 1]), path, id); }
      }
    }
  }

  /** A stored credential stays through every sequence of saves, those that raise included, if and only if each is safe for
      it. */
  lemma {:induction false} StaysStoredIff(row: Option<Fields>, saves: seq<Json>, path: seq<string>, id: string)
    requires RowHas(row, path, id) && forall i | 0 <= i < |saves| :: saves[i].Obj?
    ensures StaysStored(row, saves, path, id) <==> SafeSaves(row, saves, path, id)
    decreases |saves|
  {
    hide HasCredential, SafeFor, Mergeable, Merge;
    if saves == [] {
      assert saves[..0] == [] && AfterSaves(row, []) == row;
    } else {
      var next := Saved(row, saves[0]);
      assert forall i | 0 <= i < |saves[1..]| :: saves[1..][i] == saves[i + 1];
      if Mergeable(row.value, saves[0]) { CredentialKeptIff(row.value, saves[0], path, id); }
      StaysStoredOnce(row, saves, path, id);
      hide AfterSaves;
      if RowHas(next, path, id) {
        StaysStoredIff(next, saves[1..], path, id);
      } else {
        assert AfterSaves(next, saves[1..][..0]) == next by { NoSaves(next, saves[1..]); }
      }
    }
  }

  lemma NoSaves(row: Option<Fields>, saves: seq<Json>)
    requires forall i | 0 <= i < |saves| :: saves[i].Obj?
    ensures AfterSaves(row, saves[..0]) == row
  {
  }

  // ---------------------------------------------------------------------------------------
  // Deleting through a save
  // ---------------------------------------------------------------------------------------

  /** The live settings without item `i` of the list at the end of the path, as the delete route builds them. */
  ghost function Without(m: Fields, path: seq<string>, i: nat): Fields
    decreases |path|
  {
    if path == [] || path[0] !in m then m
    else if |path| > 1 && m[path[0]].Obj? then m[path[0] := Obj(Without(m[path[0]].fields, path[1..], i))]
    else if |path| == 1 && m[path[0]].Arr? && i < |m[path[0]].items| then
      m[path[0] := Arr(m[path[0]].items[..i] + m[path[0]].items[i + 1..])]
    else m
  }

  /** Stored tree and live settings have the same list of credentials, with unique ids, at the end of the path. */
  ghost predicate SameList(m: Fields, live: Fields, path: seq<string>)
    decreases |path|
  {
    && path != [] && path[0] in m && path[0] in live
    && var a, b := m[path[0]], live[path[0]];
       if |path| == 1 then a == b && a.Arr? && AllObjects(a.items) && UniqueIds(ItemsOf(a.items))
       else a.Obj? && b.Obj? && SameList(a.fields, b.fields, path[1..])
  }

  /** Part of a list with unique ids takes no id away from its items. */
  lemma PartKeepsId(items: seq<Fields>, part: seq<Fields>, id: string)
    requires UniqueIds(items) && (forall j | 0 <= j < |part| :: part[j] in items) && id in Index(items).items
    ensures IdKept(Index(items).items[id], part)
  {
    IndexUnique(items);
    var x := Index(items).items[id];
    var k :| 0 <= k < |Index(items).order| && Index(items).order[k] == id;
    assert x == items[k] && Id(x) == id;
    hide Index, Id, IdKept;
    forall j | 0 <= j < |part| && Id(part[j]) == Id(x)
      ensures part[j] == x
    {
      var i :| 0 <= i < |items| && items[i] == part[j];
      assert i == k;
    }
    OnlyItself(x, part);
  }

  lemma WithoutItem(items: seq<Json>, i: nat, id: string)
    requires AllObjects(items) && UniqueIds(ItemsOf(items)) && i < |items| && id in Index(ItemsOf(items)).items
    ensures var part := items[..i] + items[i + 1..]; AllObjects(part) && IdKept(Index(ItemsOf(items)).items[id], ItemsOf(part))
  {
    var part := items[..i] + items[i + 1..];
    assert forall k | 0 <= k < |part| :: part[k] == items[if k < i then k else k + 1];
    forall j | 0 <= j < |part|
      ensures ItemsOf(part)[j] in ItemsOf(items)
    {
      assert ItemsOf(part)[j] == ItemsOf(items)[if j < i then j else j + 1];
    }
    hide UniqueIds, Index, IdKept;
    PartKeepsId(ItemsOf(items), ItemsOf(part), id);
  }

  lemma {:induction false} WithoutIsSafe(m: Fields, live: Fields, path: seq<string>, i: nat, id: string)
    requires SameList(m, live, path) && HasCredential(m, path, id)
    ensures SafeFor(m, Obj(Without(live, path, i)), path, id)
    decreases |path|
  {
    if |path| > 1 {
      WithoutIsSafe(m[path[0]].fields, live[path[0]].fields, path[1..], i, id);
    } else {
      var items := m[path[0]].items;
      StoredIsIndexed(items, id);
      var part := if i < |items| then items[..i] + items[i + 1..] else items;
      if i < |items| {
        WithoutItem(items, i, id);
      } else {
        PartKeepsId(ItemsOf(items), ItemsOf(items), id);
      }
      KeptIsSpelled(ItemsOf(items), ItemsOf(part), id);
      hide Index, IdKept, UniqueIds, SpelledIds, ListHas;
    }
  }

  /** When live settings and row hold the same list, saving the live settings without an item keeps every credential. */
  lemma DeleteBySavingKeepsAll(m: Fields, live: Fields, path: seq<string>, i: nat, id: string)
    requires HasCredential(m, path, id) && SameList(m, live, path)
    ensures RowHas(Saved(Some(m), Obj(Without(live, path, i))), path, id)
  {
    WithoutIsSafe(m, live, path, i, id);
    hide HasCredential, SafeFor, Mergeable, Merge;
    var n := Obj(Without(live, path, i));
    if Mergeable(m, n) { CredentialKeptIff(m, n, path, id); }
  }

  /** The live settings hold objects and, at the end, a list on the path, as far as it goes, and no item of that list but
      number `i` has the id. */
  ghost predicate NoOther(live: Fields, path: seq<string>, i: nat, id: string)
    decreases |path|
  {
    path != [] && path[0] in live ==>
      var v := live[path[0]];
      if |path| == 1 then v.Arr? && forall j | 0 <= j < |v.items| && j != i && v.items[j].Obj? :: Id(v.items[j].fields) != id
      else v.Obj? && NoOther(v.fields, path[1..], i, id)
  }

  lemma RestUnmatched(live: seq<Json>, rest: seq<Json>, i: nat, id: string)
    requires forall j | 0 <= j < |live| && j != i && live[j].Obj? :: Id(live[j].fields) != id
    requires rest == (if i < |live| then live[..i] + live[i + 1..] else live) && AllObjects(rest)
    ensures forall k | 0 <= k < |rest| :: Id(ItemsOf(rest)[k]) != id
  {
    hide Id;
    forall k | 0 <= k < |rest|
      ensures Id(ItemsOf(rest)[k]) != id
    {
      var j := if k < i then k else k + 1;
      assert rest[k] == live[j];
    }
  }

  lemma UnmatchedStays(stored: seq<Json>, rest: seq<Json>, id: string)
    requires AllObjects(stored) && ListHas(stored, id) && AllObjects(rest)
    requires forall k | 0 <= k < |rest| :: Id(ItemsOf(rest)[k]) != id
    ensures id in SpelledIds(ItemsOf(stored), ItemsOf(rest))
  {
    StoredIsIndexed(stored, id);
    IndexValid(ItemsOf(stored));
    hide Id, Index, SpelledIds, IdKept, ListHas;
    OnlyItself(Index(ItemsOf(stored)).items[id], ItemsOf(rest));
    KeptIsSpelled(ItemsOf(stored), ItemsOf(rest), id);
  }

  lemma {:induction false} DeletedIsSafe(m: Fields, live: Fields, path: seq<string>, i: nat, id: string)
    requires HasCredential(m, path, id) && NoOther(live, path, i, id)
    ensures SafeFor(m, Obj(Without(live, path, i)), path, id)
    decreases |path|
  {
    if path[0] in live {
      if |path| > 1 {
        DeletedIsSafe(m[path[0]].fields, live[path[0]].fields, path[1..], i, id);
      } else {
        var stored, items := m[path[0]].items, live[path[0]].items;
        var rest := if i < |items| then items[..i] + items[i + 1..] else items;
        if AllObjects(stored) && AllObjects(rest) {
          RestUnmatched(items, rest, i, id);
          UnmatchedStays(stored, rest, id);
        }
        hide SpelledIds, ListHas, Id;
      }
    }
  }

  /** The legacy delete route saves the live settings without the key, so the key stays stored, whatever else the row
      holds, when no other live item has its id. */
  lemma DeleteBySavingKeepsKey(m: Fields, live: Fields, path: seq<string>, i: nat, id: string)
    requires HasCredential(m, path, id) && NoOther(live, path, i, id)
    ensures RowHas(Saved(Some(m), Obj(Without(live, path, i))), path, id)
  {
    DeletedIsSafe(m, live, path, i, id);
    hide HasCredential, SafeFor, Mergeable, Merge;
    var n := Obj(Without(live, path, i));
    if Mergeable(m, n) { CredentialKeptIff(m, n, path, id); }
  }

  // ---------------------------------------------------------------------------------------
  // The program
  // ---------------------------------------------------------------------------------------

  method MergeConfigs(existing: Fields, n: Json) returns (merged: Fields)
    requires n.Obj? && Mergeable(existing, n)
    ensures merged == Merge(existing, n)
    decreases n, 0
  {
    merged := existing;
    var keys := n.fields.Keys;
    while keys != {}
      invariant keys <= n.fields.Keys
      invariant forall key :: Field(merged, key) == if key in keys then Field(existing, key) else MergedField(existing, n, key)
      decreases |keys|
    {
      hide Merge, MergeCredentials, MaskOf;
      var key :| key in keys;
      var v := n.fields[key];
      assert FieldMergeable(key, Field(existing, key), v) && Field(merged, key) == Field(existing, key);
      var r := MergeOne(key, Field(merged, key), v);
      ghost var before := merged;
      merged := if r.Some? then merged[key := r.value] else merged;
      assert forall k | k != key :: Field(merged, k) == Field(before, k);
      keys := keys - {key};
      hide MergeField, FieldMergeable, Mergeable;
    }
    forall key
      ensures Field(merged, key) == Field(Merge(existing, n), key)
    {
      MergeFieldOf(existing, n, key);
    }
    SameFields(merged, Merge(existing, n));
  }

  /** The loop body of the merge for one key.  An absent key stays absent only when its value was skipped. */
  method MergeOne(key: string, stored: Option<Json>, v: Json) returns (r: Option<Json>)
    requires FieldMergeable(key, stored, v)
    ensures r == MergeField(key, stored, v) && (stored.Some? ==> r.Some?)
    decreases v, 1
  {
    if v.Obj? && stored.Some? && stored.value.Obj? {
      var sub := MergeConfigs(stored.value.fields, v);
      r := Some(Obj(sub));
    } else if v.Arr? && stored.Some? && stored.value.Arr? {
      if CredentialKey(key) {
        var list := MergeCredentialLists(ItemsOf(stored.value.items), ItemsOf(v.items));
        r := Some(Arr(Objects(list)));
      } else {
        r := Some(v);
      }
    } else if v == Str(FULL_MASK) {
      r := stored;
    } else if MaskOf(v, stored) {
      r := stored;
    } else {
      r := Some(v);
    }
  }

  class ConfigManager {
    var row: Option<Fields>

    constructor ()
      ensures row == None
    {
      row := None;
    }

    method SaveConfig(config: Json) returns (saved: bool)
      requires config.Obj?
      modifies this
      ensures row == Saved(old(row), config)
      ensures old(row).None? ==> saved && row == Some(config.fields)
      ensures old(row).Some? ==> (saved <==> Mergeable(old(row).value, config))
      ensures !saved ==> row == old(row)
    {
      saved := true;
      if row.Some? {
        saved := Mergeable(row.value, config);
        if saved {
          var merged := MergeConfigs(row.value, config);
          row := Some(merged);
        }
      } else {
        row := Some(config.fields);
      }
    }

    method ForceReplaceConfig(config: Json)
      requires config.Obj?
      modifies this
      ensures row == Some(config.fields)
    {
      row := Some(config.fields);
    }
  }
}
