/**
 The provider-configuration route: the dashboard reads a masked view of the live settings and posts it back.  Before the
 merge, a guard puts stored secrets back where the post holds a mask or a blank.
 */
module ConfigMask {
  import opened Basics
  import opened Credentials
  import opened ConfigMerge

  predicate Truthy(v: Json) {
    match v
    case Null => false
    case Bool(b) => b
    case Num(text) => text != "0" && text != "0.0"
    case Str(s) => s != ""
    case Arr(items) => items != []
    case Obj(fields) => fields != map[]
  }

  /** Recognises both mask shapes, with or without a value behind them. */
  predicate IsMasked(s: string) {
    s == FULL_MASK || (|s| == 11 && s[4..7] == "..." && '*' !in s)
  }

  predicate MaskedValue(v: Json) {
    v.Str? && IsMasked(v.s)
  }

  /** A submitted value that may replace a stored secret. */
  predicate GenuineValue(v: Json) {
    v.Str? && v.s != "" && !IsMasked(v.s)
  }

  // ---------------------------------------------------------------------------------------
  // One object of secrets
  // ---------------------------------------------------------------------------------------

  /** The object under a key, edited in place; an absent one is left absent. */
  function Edited(m: Fields, key: string, f: Fields -> Fields): Fields {
    if key in m && m[key].Obj? then m[key := Obj(f(m[key].fields))] else m
  }

  /** The object under a key, or an empty one. */
  function Under(m: Fields, key: string): Fields {
    if key in m && m[key].Obj? then m[key].fields else map[]
  }

  function HideFully(d: Fields, field: string): Fields {
    if field in d && Truthy(d[field]) then d[field := Str(FULL_MASK)] else d
  }

  function HidePartly(d: Fields, field: string): Fields {
    if field in d && d[field].Str? then d[field := Str(MaskSecret(d[field].s))] else d
  }

  /** What the guard leaves of a submitted field, given the stored one. */
  function PreservedValue(submitted: Option<Json>, stored: Option<Json>): Option<Json> {
    if submitted.None? || GenuineValue(submitted.value) then submitted
    else if stored.Some? && Truthy(stored.value) then stored
    else if MaskedValue(submitted.value) then None
    else submitted
  }

  function PreserveSecret(d: Fields, stored: Fields, field: string): Fields {
    var v := PreservedValue(Field(d, field), Field(stored, field));
    if v.Some? then d[field := v.value] else d - {field}
  }

  lemma PreserveSecretField(d: Fields, stored: Fields, field: string, key: string)
    ensures Field(PreserveSecret(d, stored, field), key)
         == if key == field then PreservedValue(Field(d, field), Field(stored, field)) else Field(d, key)
  {
  }

  // ---------------------------------------------------------------------------------------
  // Lists of secrets
  // ---------------------------------------------------------------------------------------

  /** Hiding a field of every object of a list. */
  function HideInEach(items: seq<Json>, hidden: Fields -> Fields): seq<Json> {
    seq(|items|, i requires 0 <= i < |items| => if items[i].Obj? then Obj(hidden(items[i].fields)) else items[i])
  }

  function HideInList(d: Fields, field: string, hidden: Fields -> Fields): Fields {
    if field in d && d[field].Arr? then d[field := Arr(HideInEach(d[field].items, hidden))] else d
  }

  function NameOf(d: Fields): Json {
    if "name" in d then d["name"] else Null
  }

  function TokenOf(d: Fields): Json {
    if "token" in d then d["token"] else Null
  }

  /** The stored tokens by name, the last of a name winning. */
  function ByName(items: seq<Json>): map<Json, Fields> {
    if items == [] then map[]
    else
      var last := items[|items| - 1];
      var rest := ByName(items[..|items| - 1]);
      if last.Obj? then rest[NameOf(last.fields) := last.fields] else rest
  }

  /** What becomes of one submitted token: a mask is replaced by the stored token of its name, or dropped. */
  function KeptToken(ent: Json, stored: map<Json, Fields>): seq<Json> {
    if !ent.Obj? then []
    else if !MaskedValue(TokenOf(ent.fields)) then [ent]
    else
      var name := NameOf(ent.fields);
      if name in stored && Truthy(TokenOf(stored[name])) then [Obj(ent.fields["token" := TokenOf(stored[name])])] else []
  }

  function KeptTokens(items: seq<Json>, stored: map<Json, Fields>): seq<Json> {
    if items == [] then [] else KeptTokens(items[..|items| - 1], stored) + KeptToken(items[|items| - 1], stored)
  }

  function PreserveTokens(d: Fields, stored: Fields): Fields {
    if "tokens" in d && d["tokens"].Arr? then
      d["tokens" := Arr(KeptTokens(d["tokens"].items, ByName(if "tokens" in stored && stored["tokens"].Arr? then stored["tokens"].items else [])))]
    else d
  }

  method PreserveTokenList(items: seq<Json>, stored: seq<Json>) returns (kept: seq<Json>)
    ensures kept == KeptTokens(items, ByName(stored))
  {
    var byName: map<Json, Fields> := map[];
    for i := 0 to |stored|
      invariant byName == ByName(stored[..i])
    {
      if stored[i].Obj? {
        byName := byName[NameOf(stored[i].fields) := stored[i].fields];
      }
      assert stored[..i + 1][..i] == stored[..i];
    }
    assert stored[..|stored|] == stored;
    kept := [];
    for i := 0 to |items|
      invariant kept == KeptTokens(items[..i], byName)
    {
      var ent := items[i];
      assert items[..i + 1][..i] == items[..i] && items[..i + 1][i] == ent;
      if ent.Obj? {
        if MaskedValue(TokenOf(ent.fields)) {
          var name := NameOf(ent.fields);
          if name in byName && Truthy(TokenOf(byName[name])) {
            kept := kept + [Obj(ent.fields["token" := TokenOf(byName[name])])];
          }
        } else {
          kept := kept + [ent];
        }
      }
    }
    assert items[..|items|] == items;
  }

  // ---------------------------------------------------------------------------------------
  // The whole tree
  // ---------------------------------------------------------------------------------------

  function MaskAws(d: Fields): Fields {
    HidePartly(HideFully(d, "secret_access_key"), "access_key_id")
  }

  function MaskCloud(d: Fields): Fields {
    var a := Edited(d, "aws", MaskAws);
    var b := Edited(a, "gcp", x => HideFully(x, "service_account_json"));
    var c := Edited(b, "azure", x => HideFully(x, "client_secret"));
    Edited(c, "ibm", x => HidePartly(x, "api_key"))
  }

  function MaskNosana(d: Fields): Fields {
    HideInList(HideFully(d, "wallet_private_key"), "api_keys", x => HidePartly(x, "key"))
  }

  function MaskHuggingface(d: Fields): Fields {
    HideInList(HideFully(d, "token"), "tokens", x => HideFully(x, "token"))
  }

  function MaskVectordb(d: Fields): Fields {
    Edited(d, "chroma", x => HideFully(x, "api_key"))
  }

  function MaskDepin(d: Fields): Fields {
    Edited(d, "nosana", MaskNosana)
  }

  /** The view that the dashboard reads. */
  function MaskConfig(settings: Fields): Fields {
    var a := Edited(settings, "cloud", MaskCloud);
    var b := Edited(a, "vectordb", MaskVectordb);
    var c := Edited(b, "depin", MaskDepin);
    Edited(c, "huggingface", MaskHuggingface)
  }

  function PreserveAws(d: Fields, stored: Fields): Fields {
    PreserveSecret(PreserveSecret(d, stored, "access_key_id"), stored, "secret_access_key")
  }

  function PreserveCloud(d: Fields, stored: Fields): Fields {
    var a := Edited(d, "aws", x => PreserveAws(x, Under(stored, "aws")));
    var b := Edited(a, "gcp", x => PreserveSecret(x, Under(stored, "gcp"), "service_account_json"));
    var c := Edited(b, "azure", x => PreserveSecret(x, Under(stored, "azure"), "client_secret"));
    Edited(c, "ibm", x => PreserveSecret(x, Under(stored, "ibm"), "api_key"))
  }

  function PreserveVectordb(d: Fields, stored: Fields): Fields {
    Edited(d, "chroma", x => PreserveSecret(x, Under(stored, "chroma"), "api_key"))
  }

  function PreserveDepin(d: Fields, stored: Fields): Fields {
    Edited(d, "nosana", x => PreserveSecret(x, Under(stored, "nosana"), "wallet_private_key"))
  }

  function PreserveHuggingface(d: Fields, stored: Fields): Fields {
    PreserveTokens(PreserveSecret(d, stored, "token"), stored)
  }

  /** The guard, given the stored `providers` object. */
  function PreserveMasked(incoming: Fields, stored: Fields): Fields {
    var a := Edited(incoming, "cloud", x => PreserveCloud(x, Under(stored, "cloud")));
    var b := Edited(a, "vectordb", x => PreserveVectordb(x, Under(stored, "vectordb")));
    var c := Edited(b, "depin", x => PreserveDepin(x, Under(stored, "depin")));
    Edited(c, "huggingface", x => PreserveHuggingface(x, Under(stored, "huggingface")))
  }

  /** What the route hands to `save_config`. */
  function Submitted(row: Option<Fields>, incoming: Fields): Json {
    Obj(map["providers" := Obj(PreserveMasked(incoming, Under(if row.Some? then row.value else map[], "providers")))])
  }

  method UpdateProviderConfig(manager: ConfigManager, incoming: Fields) returns (saved: bool)
    modifies manager
    ensures manager.row == Saved(old(manager.row), Submitted(old(manager.row), incoming))
  {
    var stored := Under(if manager.row.Some? then manager.row.value else map[], "providers");
    saved := manager.SaveConfig(Obj(map["providers" := Obj(PreserveMasked(incoming, stored))]));
  }

  // ---------------------------------------------------------------------------------------
  // Any save: a stored secret survives or is replaced by a genuine value
  // ---------------------------------------------------------------------------------------

  /** The scalar secrets, as paths below `providers`. */
  predicate SecretPath(path: seq<string>) {
    || path == ["cloud", "aws", "access_key_id"]
    || path == ["cloud", "aws", "secret_access_key"]
    || path == ["cloud", "gcp", "service_account_json"]
    || path == ["cloud", "azure", "client_secret"]
    || path == ["cloud", "ibm", "api_key"]
    || path == ["vectordb", "chroma", "api_key"]
    || path == ["depin", "nosana", "wallet_private_key"]
    || path == ["huggingface", "token"]
  }

  lemma LookupStep(m: Fields, path: seq<string>)
    requires |path| > 1
    ensures Lookup(m, path) == Lookup(Under(m, path[0]), path[1..])
    ensures ClearPath(m, path) <==> (path[0] in m ==> m[path[0]].Obj? && ClearPath(Under(m, path[0]), path[1..]))
  {
  }

  lemma LookupLast(m: Fields, key: string)
    ensures Lookup(m, [key]) == Field(m, key) && ClearPath(m, [key])
  {
  }

  /** How an edited object reads from outside. */
  ghost predicate EditsUnder(r: Fields, m: Fields, key: string, edited: Fields) {
    Field(r, key) == if key in m && m[key].Obj? then Some(Obj(edited)) else Field(m, key)
  }

  predicate TopKey(key: string) {
    key == "cloud" || key == "vectordb" || key == "depin" || key == "huggingface"
  }

  predicate CloudKey(key: string) {
    key == "aws" || key == "gcp" || key == "azure" || key == "ibm"
  }

  /** Editing objects under four different keys one after the other. */
  lemma FourEdits(m: Fields, a: string, b: string, c: string, d: string,
                  fa: Fields -> Fields, fb: Fields -> Fields, fc: Fields -> Fields, fd: Fields -> Fields)
    requires a != b && a != c && a != d && b != c && b != d && c != d
    ensures var r := Edited(Edited(Edited(Edited(m, a, fa), b, fb), c, fc), d, fd);
            && EditsUnder(r, m, a, fa(Under(m, a))) && EditsUnder(r, m, b, fb(Under(m, b)))
            && EditsUnder(r, m, c, fc(Under(m, c))) && EditsUnder(r, m, d, fd(Under(m, d)))
            && forall key | key != a && key != b && key != c && key != d :: Field(r, key) == Field(m, key)
  {
  }

  lemma TopEdits(n: Fields, s: Fields)
    ensures var r := PreserveMasked(n, s);
            && EditsUnder(r, n, "cloud", PreserveCloud(Under(n, "cloud"), Under(s, "cloud")))
            && EditsUnder(r, n, "vectordb", PreserveVectordb(Under(n, "vectordb"), Under(s, "vectordb")))
            && EditsUnder(r, n, "depin", PreserveDepin(Under(n, "depin"), Under(s, "depin")))
            && EditsUnder(r, n, "huggingface", PreserveHuggingface(Under(n, "huggingface"), Under(s, "huggingface")))
    ensures forall key | !TopKey(key) :: Field(PreserveMasked(n, s), key) == Field(n, key)
  {
    hide PreserveCloud, PreserveVectordb, PreserveDepin, PreserveHuggingface, Edited, EditsUnder, Under, Field;
    FourEdits(n, "cloud", "vectordb", "depin", "huggingface", x => PreserveCloud(x, Under(s, "cloud")), x => PreserveVectordb(x, Under(s, "vectordb")),
              x => PreserveDepin(x, Under(s, "depin")), x => PreserveHuggingface(x, Under(s, "huggingface")));
  }

  lemma CloudEdits(n: Fields, s: Fields)
    ensures var r := PreserveCloud(n, s);
            && EditsUnder(r, n, "aws", PreserveAws(Under(n, "aws"), Under(s, "aws")))
            && EditsUnder(r, n, "gcp", PreserveSecret(Under(n, "gcp"), Under(s, "gcp"), "service_account_json"))
            && EditsUnder(r, n, "azure", PreserveSecret(Under(n, "azure"), Under(s, "azure"), "client_secret"))
            && EditsUnder(r, n, "ibm", PreserveSecret(Under(n, "ibm"), Under(s, "ibm"), "api_key"))
    ensures forall key | !CloudKey(key) :: Field(PreserveCloud(n, s), key) == Field(n, key)
  {
    hide PreserveAws, PreserveSecret, Edited, EditsUnder, Under, Field;
    FourEdits(n, "aws", "gcp", "azure", "ibm", x => PreserveAws(x, Under(s, "aws")), x => PreserveSecret(x, Under(s, "gcp"), "service_account_json"),
              x => PreserveSecret(x, Under(s, "azure"), "client_secret"), x => PreserveSecret(x, Under(s, "ibm"), "api_key"));
  }

  /** The guard acts on a scalar secret exactly as `PreservedValue` says. */
  ghost predicate GuardedAt(r: Fields, n: Fields, s: Fields, path: seq<string>) {
    ClearPath(r, path) && Lookup(r, path) == PreservedValue(Lookup(n, path), Lookup(s, path))
  }

  lemma GuardedBelow(r: Fields, n: Fields, s: Fields, key: string, edited: Fields, rest: seq<string>)
    requires rest != [] && ClearPath(n, [key] + rest) && EditsUnder(r, n, key, edited)
    requires GuardedAt(edited, Under(n, key), Under(s, key), rest)
    ensures GuardedAt(r, n, s, [key] + rest)
  {
    var path := [key] + rest;
    assert path[0] == key && path[1..] == rest;
    LookupStep(r, path);
    LookupStep(n, path);
    LookupStep(s, path);
    hide PreservedValue;
    if key !in n {
      assert Lookup(n, path) == None && Lookup(r, path) == None;
    }
  }

  lemma GuardedLeaf(n: Fields, s: Fields, field: string)
    ensures GuardedAt(PreserveSecret(n, s, field), n, s, [field])
  {
    PreserveSecretField(n, s, field, field);
    LookupLast(PreserveSecret(n, s, field), field);
    LookupLast(n, field);
    LookupLast(s, field);
  }

  lemma GuardedAws(n: Fields, s: Fields)
    ensures GuardedAt(PreserveAws(n, s), n, s, ["access_key_id"]) && GuardedAt(PreserveAws(n, s), n, s, ["secret_access_key"])
  {
    var first := PreserveSecret(n, s, "access_key_id");
    PreserveSecretField(n, s, "access_key_id", "access_key_id");
    PreserveSecretField(n, s, "access_key_id", "secret_access_key");
    PreserveSecretField(first, s, "secret_access_key", "access_key_id");
    PreserveSecretField(first, s, "secret_access_key", "secret_access_key");
    forall f | f in {"access_key_id", "secret_access_key"}
      ensures GuardedAt(PreserveAws(n, s), n, s, [f])
    {
      LookupLast(PreserveAws(n, s), f);
      LookupLast(n, f);
      LookupLast(s, f);
      hide PreservedValue, PreserveSecret;
    }
  }

  lemma GuardedToken(n: Fields, s: Fields)
    ensures GuardedAt(PreserveHuggingface(n, s), n, s, ["token"])
  {
    var first := PreserveSecret(n, s, "token");
    GuardedLeaf(n, s, "token");
    assert Field(PreserveTokens(first, s), "token") == Field(first, "token");
    LookupLast(PreserveHuggingface(n, s), "token");
    LookupLast(first, "token");
    hide PreservedValue, PreserveSecret, PreserveTokens;
  }

  lemma GuardedInCloud(n: Fields, s: Fields, provider: string, field: string)
    requires ClearPath(n, [provider, field]) && SecretPath(["cloud", provider, field])
    ensures GuardedAt(PreserveCloud(n, s), n, s, [provider, field])
  {
    CloudEdits(n, s);
    assert ["cloud", provider, field][1] == provider && ["cloud", provider, field][2] == field;
    assert [provider, field] == [provider] + [field];
    hide PreserveCloud, EditsUnder, GuardedAt, ClearPath;
    if provider == "aws" {
      GuardedAws(Under(n, "aws"), Under(s, "aws"));
      GuardedBelow(PreserveCloud(n, s), n, s, provider, PreserveAws(Under(n, "aws"), Under(s, "aws")), [field]);
    } else {
      GuardedLeaf(Under(n, provider), Under(s, provider), field);
      GuardedBelow(PreserveCloud(n, s), n, s, provider, PreserveSecret(Under(n, provider), Under(s, provider), field), [field]);
    }
  }

  lemma ClearBelow(n: Fields, path: seq<string>)
    requires |path| > 1 && ClearPath(n, path)
    ensures ClearPath(Under(n, path[0]), path[1..])
  {
  }

  /** Where a scalar secret is. */
  lemma SecretPathCases(path: seq<string>)
    requires SecretPath(path)
    ensures |path| > 1 && path == [path[0]] + path[1..]
    ensures || (path[0] == "cloud" && |path| == 3 && path[1..] == [path[1], path[2]] && SecretPath(["cloud", path[1], path[2]]))
            || (path[0] == "vectordb" && path[1..] == ["chroma"] + ["api_key"])
            || (path[0] == "depin" && path[1..] == ["nosana"] + ["wallet_private_key"])
            || (path[0] == "huggingface" && path[1..] == ["token"])
  {
    if |path| == 3 { assert path == [path[0], path[1], path[2]]; }
  }

  lemma Guarded(n: Fields, s: Fields, path: seq<string>)
    requires SecretPath(path) && ClearPath(n, path)
    ensures GuardedAt(PreserveMasked(n, s), n, s, path)
  {
    TopEdits(n, s);
    SecretPathCases(path);
    ClearBelow(n, path);
    hide PreserveMasked, PreserveCloud, PreserveHuggingface, EditsUnder, GuardedAt, ClearPath, Under, SecretPath;
    var key, rest := path[0], path[1..];
    var below, stored := Under(n, key), Under(s, key);
    if key == "cloud" {
      GuardedInCloud(below, stored, path[1], path[2]);
      GuardedBelow(PreserveMasked(n, s), n, s, key, PreserveCloud(below, stored), rest);
    } else if key == "huggingface" {
      GuardedToken(below, stored);
      GuardedBelow(PreserveMasked(n, s), n, s, key, PreserveHuggingface(below, stored), rest);
    } else if key == "vectordb" {
      GuardedOne(below, stored, "chroma", "api_key", PreserveVectordb(below, stored));
      GuardedBelow(PreserveMasked(n, s), n, s, key, PreserveVectordb(below, stored), rest);
    } else {
      GuardedOne(below, stored, "nosana", "wallet_private_key", PreserveDepin(below, stored));
      GuardedBelow(PreserveMasked(n, s), n, s, key, PreserveDepin(below, stored), rest);
    }
  }

  lemma GuardedOne(n: Fields, s: Fields, key: string, field: string, r: Fields)
    requires ClearPath(n, [key] + [field]) && r == Edited(n, key, x => PreserveSecret(x, Under(s, key), field))
    ensures GuardedAt(r, n, s, [key] + [field])
  {
    GuardedLeaf(Under(n, key), Under(s, key), field);
    assert EditsUnder(r, n, key, PreserveSecret(Under(n, key), Under(s, key), field));
    hide EditsUnder, GuardedAt, ClearPath, Edited;
    GuardedBelow(r, n, s, key, PreserveSecret(Under(n, key), Under(s, key), field), [field]);
  }

  /** The row after one post to the route. */
  function Posted(row: Option<Fields>, incoming: Fields): Option<Fields> {
    Saved(row, Submitted(row, incoming))
  }

  ghost function SecretAt(row: Option<Fields>, path: seq<string>): Option<Json> {
    if row.Some? then Lookup(row.value, ["providers"] + path) else None
  }

  /** The text has one of the two mask shapes. */
  predicate LooksMasked(s: string) {
    s == "********" || (|s| == 11 && s[4..7] == "..." && '*' !in s)
  }

  predicate TextOrNull(v: Option<Json>) {
    v.None? || v.value.Str? || v.value.Null?
  }

  predicate HasText(v: Option<Json>) {
    v.Some? && v.value.Str? && v.value.s != ""
  }

  /** What is stored for a secret after a post: a genuine text is written unless it is the short form of the stored one, a mask
      or a blank leaves a stored secret alone, and a mask with nothing behind it is dropped. */
  function SecretAfter(was: Option<Json>, posted: Option<Json>): Option<Json> {
    if posted.None? then was
    else if HasText(posted) && !LooksMasked(posted.value.s) then
      if HasText(was) && |was.value.s| >= 8 && posted.value.s == was.value.s[..4] + "..." + was.value.s[|was.value.s| - 4..] then was
      else posted
    else if HasText(was) || HasText(posted) then was
    else posted
  }

  lemma GuardedThenWritten(was: Option<Json>, posted: Option<Json>)
    requires TextOrNull(was) && (TextOrNull(posted) || HasText(was))
    ensures var u := PreservedValue(posted, was);
            && TextOrNull(u) && SecretAfter(was, posted) == (if u.None? || Skipped(u.value, was) then was else u)
            && (was.None? && u.Some? ==> !Skipped(u.value, was))
  {
  }

  /** The exact fate of every scalar secret in every post that can be merged. */
  lemma PostedSecret(row: Fields, incoming: Fields, path: seq<string>)
    requires SecretPath(path) && ClearPath(incoming, path) && Mergeable(row, Submitted(Some(row), incoming))
    requires TextOrNull(SecretAt(Some(row), path)) && (TextOrNull(Lookup(incoming, path)) || HasText(SecretAt(Some(row), path)))
    ensures SecretAt(Posted(Some(row), incoming), path) == SecretAfter(SecretAt(Some(row), path), Lookup(incoming, path))
  {
    var full, stored := ["providers"] + path, Under(row, "providers");
    var n := Submitted(Some(row), incoming);
    assert path != [];
    Guarded(incoming, stored, path);
    hide PreserveMasked, SecretPath;
    SubmittedAt(row, incoming, path);
    GuardedThenWritten(Lookup(row, full), Lookup(incoming, path));
    if Lookup(row, full).Some? { StoredReaches(row, full); }
    hide Lookup, ClearPath, Submitted, PreservedValue, SecretAfter, Mergeable, Merge, Reaches, Skipped;
    var u := Lookup(n.fields, full);
    if u.None? { UntouchedAt(row, n, full); } else { WrittenAt(row, n, full, u.value); }
  }

  lemma {:induction false} StoredReaches(m: Fields, path: seq<string>)
    requires Lookup(m, path).Some?
    ensures Reaches(m, path)
    decreases |path|
  {
    if |path| > 1 { StoredReaches(m[path[0]].fields, path[1..]); }
  }

  /** Whatever is posted, a non-empty stored scalar secret stays as it is or becomes a submitted value that is neither
      empty nor masked. */
  lemma SecretSurvives(row: Option<Fields>, incoming: Fields, path: seq<string>, secret: string)
    requires SecretPath(path) && ClearPath(incoming, path) && secret != "" && SecretAt(row, path) == Some(Str(secret))
    ensures var after, v := SecretAt(Posted(row, incoming), path), Lookup(incoming, path);
            after == Some(Str(secret)) || (v.Some? && GenuineValue(v.value) && after == v)
  {
    hide SecretPath, ClearPath, PreserveMasked, Merge, Mergeable, Lookup;
    if Mergeable(row.value, Submitted(row, incoming)) { PostedSecret(row.value, incoming, path); }
  }

  /** No post stores a mask in place of a scalar secret. */
  lemma MaskNeverStored(row: Option<Fields>, incoming: Fields, path: seq<string>)
    requires SecretPath(path) && ClearPath(incoming, path) && TextOrNull(SecretAt(row, path)) && TextOrNull(Lookup(incoming, path))
    ensures var after := SecretAt(Posted(row, incoming), path);
            HasText(after) && LooksMasked(after.value.s) ==> after == SecretAt(row, path)
  {
    if row.None? {
      assert path != [];
      Guarded(incoming, map[], path);
      SubmittedAt(map[], incoming, path);
      assert Submitted(None, incoming) == Submitted(Some(map[]), incoming);
    }
    hide SecretPath, ClearPath, Submitted, Merge, Mergeable, Lookup, PreserveMasked;
    if row.Some? && Mergeable(row.value, Submitted(row, incoming)) { PostedSecret(row.value, incoming, path); }
  }

  /** Below `providers`, the stored tree and what is handed to the save read like the stored and the guarded object. */
  lemma SubmittedAt(row: Fields, incoming: Fields, path: seq<string>)
    requires path != []
    ensures var full, stored, n := ["providers"] + path, Under(row, "providers"), Submitted(Some(row), incoming);
            var guarded := PreserveMasked(incoming, stored);
            && Lookup(row, full) == Lookup(stored, path) && Lookup(n.fields, full) == Lookup(guarded, path)
            && (ClearPath(n.fields, full) <==> ClearPath(guarded, path))
  {
    hide PreserveMasked;
    var full, n := ["providers"] + path, Submitted(Some(row), incoming);
    assert full[0] == "providers" && full[1..] == path;
    LookupStep(row, full);
    LookupStep(n.fields, full);
    assert n == Obj(map["providers" := Obj(PreserveMasked(incoming, Under(row, "providers")))]);
  }

  // ---------------------------------------------------------------------------------------
  // Named tokens
  // ---------------------------------------------------------------------------------------

  /** The last stored entry of a name. */
  ghost predicate LastOfName(stored: seq<Json>, i: nat, name: Json) {
    && i < |stored| && stored[i].Obj? && NameOf(stored[i].fields) == name
    && forall j | i < j < |stored| && stored[j].Obj? :: NameOf(stored[j].fields) != name
  }

  lemma {:induction false} ByNameLast(stored: seq<Json>, i: nat, name: Json)
    requires LastOfName(stored, i, name)
    ensures name in ByName(stored) && ByName(stored)[name] == stored[i].fields
  {
    hide NameOf;
    var last := |stored| - 1;
    if i < last {
      assert stored[..last][i] == stored[i];
      assert forall j | i < j < last :: stored[..last][j] == stored[j];
      ByNameLast(stored[..last], i, name);
    }
  }

  lemma {:induction false} ByNameNone(stored: seq<Json>, name: Json)
    requires forall i | 0 <= i < |stored| && stored[i].Obj? :: NameOf(stored[i].fields) != name
    ensures name !in ByName(stored)
  {
    hide NameOf;
    if stored != [] {
      var front := stored[..|stored| - 1];
      assert forall i | 0 <= i < |front| :: front[i] == stored[i];
      ByNameNone(front, name);
    }
  }

  ghost predicate NoneOfName(stored: seq<Json>, name: Json) {
    forall i | 0 <= i < |stored| && stored[i].Obj? :: NameOf(stored[i].fields) != name
  }

  /** A posted token that is no mask is kept. */
  lemma NewToken(ent: Fields, stored: seq<Json>)
    requires HasText(Field(ent, "token")) && !LooksMasked(ent["token"].s)
    ensures KeptToken(Obj(ent), ByName(stored)) == [Obj(ent)]
  {
  }

  /** A mask becomes the token of the last stored entry of its name; it is dropped when that has none. */
  lemma MaskedToken(ent: Fields, stored: seq<Json>, i: nat)
    requires HasText(Field(ent, "token")) && LooksMasked(ent["token"].s)
    requires LastOfName(stored, i, NameOf(ent)) && TextOrNull(Field(stored[i].fields, "token"))
    ensures KeptToken(Obj(ent), ByName(stored))
         == if HasText(Field(stored[i].fields, "token")) then [Obj(ent["token" := stored[i].fields["token"]])] else []
  {
    ByNameLast(stored, i, NameOf(ent));
    hide ByName, NameOf;
  }

  /** A mask of an unknown name is dropped. */
  lemma UnknownToken(ent: Fields, stored: seq<Json>)
    requires HasText(Field(ent, "token")) && LooksMasked(ent["token"].s) && NoneOfName(stored, NameOf(ent))
    ensures KeptToken(Obj(ent), ByName(stored)) == []
  {
    ByNameNone(stored, NameOf(ent));
    hide ByName, NameOf;
  }

  lemma {:induction false} KeptTokensConcat(a: seq<Json>, b: seq<Json>, stored: map<Json, Fields>)
    ensures KeptTokens(a + b, stored) == KeptTokens(a, stored) + KeptTokens(b, stored)
  {
    hide KeptToken;
    if b == [] {
      assert a + b == a;
    } else {
      assert (a + b)[..|a + b| - 1] == a + b[..|b| - 1];
      KeptTokensConcat(a, b[..|b| - 1], stored);
    }
  }

  /** The named tokens in a tree below `providers`. */
  function TokensOf(s: Fields): seq<Json> {
    var tokens := Lookup(s, ["huggingface", "tokens"]);
    if tokens.Some? && tokens.value.Arr? then tokens.value.items else []
  }

  lemma GuardedTokensAt(n: Fields, s: Fields, items: seq<Json>)
    requires Lookup(n, ["huggingface", "tokens"]) == Some(Arr(items))
    ensures Lookup(PreserveMasked(n, s), ["huggingface", "tokens"]) == Some(Arr(KeptTokens(items, ByName(TokensOf(s)))))
  {
    var path, r, key := ["huggingface", "tokens"], PreserveMasked(n, s), "huggingface";
    assert path[0] == key && path[1..] == ["tokens"];
    TopEdits(n, s);
    LookupStep(n, path);
    LookupStep(r, path);
    LookupStep(s, path);
    var d, e := Under(n, key), Under(s, key);
    LookupLast(d, "tokens");
    LookupLast(e, "tokens");
    PreserveSecretField(d, e, "token", "tokens");
    LookupLast(PreserveHuggingface(d, e), "tokens");
    hide PreserveMasked, PreserveSecret, PreservedValue, KeptTokens, ByName, Lookup;
    assert Field(r, key) == Some(Obj(PreserveHuggingface(d, e)));
  }

  /** After a post that can be merged, the named tokens are the posted ones as the guard leaves them, in their order. */
  lemma PostedTokens(row: Fields, incoming: Fields, items: seq<Json>)
    requires Lookup(incoming, ["huggingface", "tokens"]) == Some(Arr(items)) && Mergeable(row, Submitted(Some(row), incoming))
    ensures SecretAt(Posted(Some(row), incoming), ["huggingface", "tokens"])
         == Some(Arr(KeptTokens(items, ByName(TokensOf(Under(row, "providers"))))))
  {
    var path, stored := ["huggingface", "tokens"], Under(row, "providers");
    var full, n := ["providers"] + path, Submitted(Some(row), incoming);
    GuardedTokensAt(incoming, stored, items);
    SubmittedAt(row, incoming, path);
    assert full[|full| - 1] == "tokens" && !ById("tokens");
    hide PreserveMasked, Lookup, KeptTokens, ByName, Merge, Mergeable, TokensOf;
    WrittenAt(row, n, full, Lookup(n.fields, full).value);
  }

  ghost function AfterPosts(row: Option<Fields>, posts: seq<Fields>): Option<Fields>
    decreases |posts|
  {
    if posts == [] then row else AfterPosts(Posted(row, posts[0]), posts[1..])
  }

  /** Over any sequence of posts, the secret is the first one or one that some post submitted in the clear. */
  lemma {:induction false} SecretOverPosts(row: Option<Fields>, posts: seq<Fields>, path: seq<string>, secret: string)
    requires SecretPath(path) && secret != "" && SecretAt(row, path) == Some(Str(secret))
    requires forall i | 0 <= i < |posts| :: ClearPath(posts[i], path)
    ensures var after := SecretAt(AfterPosts(row, posts), path);
            after == Some(Str(secret)) || exists i | 0 <= i < |posts| :: after == Lookup(posts[i], path) && after.Some? && GenuineValue(after.value)
    decreases |posts|
  {
    hide Posted, SecretPath, ClearPath, SecretAt, Lookup;
    if posts != [] {
      SecretSurvives(row, posts[0], path, secret);
      var now := SecretAt(Posted(row, posts[0]), path).value.s;
      var rest := posts[1..];
      assert forall i | 0 <= i < |rest| :: rest[i] == posts[i + 1];
      SecretOverPosts(Posted(row, posts[0]), rest, path, now);
      var after := SecretAt(AfterPosts(row, posts), path);
      if i :| 0 <= i < |rest| && after == Lookup(rest[i], path) && after.Some? && GenuineValue(after.value) {
        assert after == Lookup(posts[i + 1], path);
      } else if now != secret {
        assert after == Lookup(posts[0], path);
      }
    }
  }

  // ---------------------------------------------------------------------------------------
  // The masked round trip
  // ---------------------------------------------------------------------------------------

  /** The value under this key merges, and leaves the stored one as it is exactly when `good`. */
  ghost predicate EchoesIff(key: string, stored: Json, v: Json, good: bool) {
    FieldMergeable(key, Some(stored), v) && (MergeField(key, Some(stored), v) == Some(stored) <==> good)
  }

  /** The same for a whole object. */
  ghost predicate ObjectEchoesIff(stored: Fields, n: Fields, good: bool) {
    Mergeable(stored, Obj(n)) && (Merge(stored, Obj(n)) == stored <==> good)
  }

  /** The same for what an object holds under a key; an absent key changes nothing. */
  ghost predicate FieldEchoesIff(stored: Fields, n: Fields, key: string, good: bool) {
    if key in n then key in stored && EchoesIff(key, stored[key], n[key], good) else good
  }

  /** The field echoes exactly when its key is not among the bad ones. */
  ghost predicate EchoesUnless(stored: Fields, n: Fields, key: string, bad: set<string>) {
    FieldEchoesIff(stored, n, key, key !in bad)
  }

  /** An object echoes exactly when all its fields do. */
  lemma Collect(stored: Fields, n: Fields, bad: set<string>)
    requires forall key :: EchoesUnless(stored, n, key, bad)
    ensures ObjectEchoesIff(stored, n, bad == {})
  {
    hide MergeField, FieldMergeable;
    forall key | key in n
      ensures FieldMergeable(key, Field(stored, key), n[key])
    {
      assert EchoesUnless(stored, n, key, bad);
    }
    forall key
      ensures Field(Merge(stored, Obj(n)), key) == Field(stored, key) <==> key !in bad
    {
      assert EchoesUnless(stored, n, key, bad);
      MergeFieldOf(stored, Obj(n), key);
      hide Merge;
    }
    hide Merge, Mergeable, FieldEchoesIff;
    if bad == {} {
      SameFields(Merge(stored, Obj(n)), stored);
    } else {
      var key :| key in bad;
      assert Field(Merge(stored, Obj(n)), key) != Field(stored, key);
    }
  }

  lemma EchoObject(key: string, stored: Json, n: Fields, good: bool)
    requires stored.Obj? && ObjectEchoesIff(stored.fields, n, good)
    ensures EchoesIff(key, stored, Obj(n), good)
  {
    hide Merge, Mergeable, MergeCredentials;
  }

  /** The live settings agree with the stored tree, which may hold more; credential lists hold objects. */
  predicate Agrees(stored: Fields, v: Json)
    requires v.Obj?
    decreases v, 0
  {
    forall key | key in v.fields :: key in stored && AgreesField(key, stored[key], v.fields[key])
  }

  predicate AgreesField(key: string, stored: Json, v: Json)
    decreases v, 1
  {
    if v.Obj? then stored.Obj? && Agrees(stored.fields, v)
    else v == stored && (v.Arr? && CredentialKey(key) ==> AllObjects(v.items))
  }

  /** No credential list under the key repeats an id. */
  ghost predicate GoodAt(d: Fields, key: string) {
    key in d ==> UniqueField(key, d[key])
  }

  ghost function BadKeys(d: Fields): set<string> {
    set key | key in d && !GoodAt(d, key)
  }

  lemma NoBadKeys(d: Fields)
    ensures BadKeys(d) == {} <==> UniqueLists(Obj(d))
  {
    hide UniqueField;
    if BadKeys(d) == {} {
      forall key | key in d
        ensures UniqueField(key, d[key])
      {
        assert key !in BadKeys(d);
      }
    }
  }

  lemma MaskedListIff(items: seq<Fields>, masked: seq<Fields>)
    requires |masked| == |items|
    requires forall i | 0 <= i < |items| :: Id(masked[i]) == Id(items[i]) && MergeItem(items[i], masked[i]) == items[i]
    ensures MergeCredentials(items, masked) == items <==> UniqueIds(items)
  {
    if !UniqueIds(items) {
      SameIdsShrink(items, masked);
      return;
    }
    IndexUnique(items);
    hide Id, MergeItem, UniqueIds;
    forall j | 0 <= j < |masked|
      ensures Id(masked[j]) in Index(items).items && MergeItem(Index(items).items[Id(masked[j])], masked[j]) == Index(items).items[Id(masked[j])]
    {
      assert Index(items).order[j] == Id(items[j]);
      hide Index;
    }
    AbsorbNothing(Index(items), masked);
    ValuesOfUnique(items);
  }

  lemma CredentialListIff(key: string, items: seq<Json>, masked: seq<Json>)
    requires CredentialKey(key) && AllObjects(items) && AllObjects(masked) && |masked| == |items|
    requires forall i | 0 <= i < |items| ::
               Id(masked[i].fields) == Id(items[i].fields) && MergeItem(items[i].fields, masked[i].fields) == items[i].fields
    ensures EchoesIff(key, Arr(items), Arr(masked), UniqueField(key, Arr(items)))
  {
    var a, b := ItemsOf(items), ItemsOf(masked);
    assert forall i | 0 <= i < |items| :: Id(b[i]) == Id(a[i]) && MergeItem(a[i], b[i]) == a[i];
    hide Id, MergeItem, MergeCredentials, UniqueIds;
    MaskedListIff(a, b);
    ObjectsOfItems(items);
  }

  /** What is posted unmasked echoes exactly when no credential list in it repeats an id. */
  lemma {:induction false} AgreesEchoes(key: string, stored: Json, v: Json)
    requires AgreesField(key, stored, v)
    ensures EchoesIff(key, stored, v, UniqueField(key, v))
    decreases v
  {
    if v.Obj? {
      forall k
        ensures EchoesUnless(stored.fields, v.fields, k, BadKeys(v.fields))
      {
        if k in v.fields { AgreesEchoes(k, stored.fields[k], v.fields[k]); }
        hide EchoesIff, AgreesField, UniqueField;
      }
      NoBadKeys(v.fields);
      hide FieldEchoesIff, ObjectEchoesIff, AgreesField;
      Collect(stored.fields, v.fields, BadKeys(v.fields));
      EchoObject(key, stored, v.fields, UniqueLists(v));
    } else if v.Arr? && CredentialKey(key) {
      forall i | 0 <= i < |v.items|
        ensures MergeItem(v.items[i].fields, v.items[i].fields) == v.items[i].fields
      {
        MergeItemTwice(v.items[i].fields, v.items[i].fields);
      }
      hide MergeItem, Id, EchoesIff, UniqueField;
      CredentialListIff(key, v.items, v.items);
    } else {
      hide MergeCredentials, Merge, Mergeable, UniqueLists;
    }
  }

  predicate Scalar(v: Json) {
    v.Str? || v.Null?
  }

  lemma MaskIsMaskOf(secret: string)
    requires |secret| >= 8
    ensures MaskOf(Str(MaskSecret(secret)), Some(Str(secret)))
  {
    ContainsMiddle(secret[..4], "...", secret[|secret| - 4..]);
  }

  lemma FullyHiddenEchoes(field: string, v: Json)
    requires Scalar(v)
    ensures var u := PreservedValue(Some(if Truthy(v) then Str(FULL_MASK) else v), Some(v)); u.Some? && EchoesIff(field, v, u.value, true)
  {
    hide MergeCredentials, Merge, Mergeable, MaskOf;
  }

  lemma PartlyHiddenEchoes(field: string, v: Json)
    requires Scalar(v)
    ensures var u := PreservedValue(Some(if v.Str? then Str(MaskSecret(v.s)) else v), Some(v)); u.Some? ==> EchoesIff(field, v, u.value, true)
  {
    if v.Str? && |v.s| >= 8 { MaskIsMaskOf(v.s); }
    hide MergeCredentials, Merge, Mergeable, MaskOf;
  }

  /** The field is the live one, or it echoes exactly when that one repeats no id. */
  ghost predicate LeafField(stored: Fields, d: Fields, r: Fields, key: string) {
    if key in r then key in d && (r[key] == d[key] || (key in stored && EchoesIff(key, stored[key], r[key], GoodAt(d, key))))
    else GoodAt(d, key)
  }

  lemma LeafFieldEchoes(stored: Fields, d: Fields, r: Fields, key: string)
    requires Agrees(stored, Obj(d)) && LeafField(stored, d, r, key)
    ensures FieldEchoesIff(stored, r, key, GoodAt(d, key))
  {
    hide EchoesIff, AgreesField, UniqueField;
    if key in r && r[key] == d[key] { AgreesEchoes(key, stored[key], d[key]); }
  }

  /** An edited object echoes exactly when no credential list of the live one repeats an id. */
  lemma LeafEcho(stored: Fields, d: Fields, r: Fields)
    requires Agrees(stored, Obj(d)) && forall key :: LeafField(stored, d, r, key)
    ensures ObjectEchoesIff(stored, r, UniqueLists(Obj(d)))
  {
    NoBadKeys(d);
    hide ObjectEchoesIff, FieldEchoesIff, LeafField, Agrees, UniqueField;
    forall key
      ensures EchoesUnless(stored, r, key, BadKeys(d))
    {
      LeafFieldEchoes(stored, d, r, key);
    }
    Collect(stored, r, BadKeys(d));
  }

  lemma ScalarAgrees(stored: Fields, d: Fields, field: string)
    requires Agrees(stored, Obj(d)) && field in d && Scalar(d[field])
    ensures field in stored && stored[field] == d[field] && GoodAt(d, field)
  {
    assert AgreesField(field, stored[field], d[field]);
  }

  lemma FullLeaf(stored: Fields, d: Fields, field: string)
    requires Agrees(stored, Obj(d)) && (field in d ==> Scalar(d[field]))
    ensures ObjectEchoesIff(stored, PreserveSecret(HideFully(d, field), stored, field), UniqueLists(Obj(d)))
  {
    var r := PreserveSecret(HideFully(d, field), stored, field);
    if field in d {
      ScalarAgrees(stored, d, field);
      FullyHiddenEchoes(field, d[field]);
    }
    hide EchoesIff, Agrees, GoodAt;
    forall key
      ensures LeafField(stored, d, r, key)
    {
      PreserveSecretField(HideFully(d, field), stored, field, key);
    }
    LeafEcho(stored, d, r);
  }

  lemma PartLeaf(stored: Fields, d: Fields, field: string)
    requires Agrees(stored, Obj(d)) && (field in d ==> Scalar(d[field]))
    ensures ObjectEchoesIff(stored, PreserveSecret(HidePartly(d, field), stored, field), UniqueLists(Obj(d)))
  {
    var r := PreserveSecret(HidePartly(d, field), stored, field);
    if field in d {
      ScalarAgrees(stored, d, field);
      PartlyHiddenEchoes(field, d[field]);
    }
    hide EchoesIff, Agrees, GoodAt;
    forall key
      ensures LeafField(stored, d, r, key)
    {
      PreserveSecretField(HidePartly(d, field), stored, field, key);
    }
    LeafEcho(stored, d, r);
  }

  lemma AwsLeaf(stored: Fields, d: Fields)
    requires Agrees(stored, Obj(d))
    requires ("access_key_id" in d ==> Scalar(d["access_key_id"])) && ("secret_access_key" in d ==> Scalar(d["secret_access_key"]))
    ensures ObjectEchoesIff(stored, PreserveAws(MaskAws(d), stored), UniqueLists(Obj(d)))
  {
    var m := MaskAws(d);
    var first := PreserveSecret(m, stored, "access_key_id");
    var r := PreserveSecret(first, stored, "secret_access_key");
    if "access_key_id" in d {
      ScalarAgrees(stored, d, "access_key_id");
      PartlyHiddenEchoes("access_key_id", d["access_key_id"]);
    }
    if "secret_access_key" in d {
      ScalarAgrees(stored, d, "secret_access_key");
      FullyHiddenEchoes("secret_access_key", d["secret_access_key"]);
    }
    assert Field(m, "access_key_id") == Field(HidePartly(d, "access_key_id"), "access_key_id");
    assert Field(m, "secret_access_key") == Field(HideFully(d, "secret_access_key"), "secret_access_key");
    assert forall key | key != "access_key_id" && key != "secret_access_key" :: Field(m, key) == Field(d, key);
    hide EchoesIff, Agrees, MaskAws, GoodAt;
    forall key
      ensures LeafField(stored, d, r, key)
    {
      PreserveSecretField(m, stored, "access_key_id", key);
      PreserveSecretField(first, stored, "secret_access_key", key);
      PreserveSecretField(m, stored, "access_key_id", "secret_access_key");
      hide PreserveSecret, PreservedValue;
    }
    LeafEcho(stored, d, r);
  }

  /** A credential merged with its own masked form is unchanged. */
  lemma MaskedItemEchoes(x: Fields)
    ensures MergeItem(x, HidePartly(x, "key")) == x && Id(HidePartly(x, "key")) == Id(x)
  {
    var y := HidePartly(x, "key");
    if "key" in x && x["key"].Str? && |x["key"].s| >= 8 { MaskIsMaskOf(x["key"].s); }
    forall key
      ensures Field(MergeItem(x, y), key) == Field(x, key)
    {
      MergeItemField(x, y, key);
      hide MergeItem, MaskOf, Contains;
    }
    SameFields(MergeItem(x, y), x);
  }

  lemma ApiKeysEcho(items: seq<Json>)
    requires AllObjects(items)
    ensures EchoesIff("api_keys", Arr(items), Arr(HideInEach(items, x => HidePartly(x, "key"))), UniqueField("api_keys", Arr(items)))
  {
    var hidden := HideInEach(items, x => HidePartly(x, "key"));
    forall i | 0 <= i < |items|
      ensures hidden[i].Obj? && Id(hidden[i].fields) == Id(items[i].fields) && MergeItem(items[i].fields, hidden[i].fields) == items[i].fields
    {
      MaskedItemEchoes(items[i].fields);
      assert hidden[i] == Obj(HidePartly(items[i].fields, "key"));
      hide Id, MergeItem;
    }
    hide Id, MergeItem, EchoesIff, UniqueField;
    CredentialListIff("api_keys", items, hidden);
  }

  lemma NosanaLeaf(stored: Fields, d: Fields)
    requires Agrees(stored, Obj(d)) && ("wallet_private_key" in d ==> Scalar(d["wallet_private_key"]))
    ensures ObjectEchoesIff(stored, PreserveSecret(MaskNosana(d), stored, "wallet_private_key"), UniqueLists(Obj(d)))
  {
    var m := MaskNosana(d);
    var r := PreserveSecret(m, stored, "wallet_private_key");
    if "wallet_private_key" in d {
      ScalarAgrees(stored, d, "wallet_private_key");
      FullyHiddenEchoes("wallet_private_key", d["wallet_private_key"]);
    }
    if "api_keys" in d && d["api_keys"].Arr? {
      assert AgreesField("api_keys", stored["api_keys"], d["api_keys"]);
      ApiKeysEcho(d["api_keys"].items);
      assert GoodAt(d, "api_keys") == UniqueField("api_keys", Arr(d["api_keys"].items));
    }
    hide EchoesIff, Agrees, UniqueField, GoodAt;
    forall key
      ensures LeafField(stored, d, r, key)
    {
      PreserveSecretField(m, stored, "wallet_private_key", key);
      hide PreserveSecret, HideInEach;
    }
    LeafEcho(stored, d, r);
  }

  predicate UniqueNames(items: seq<Json>) {
    AllObjects(items) && forall i, j | 0 <= i < j < |items| :: NameOf(items[i].fields) != NameOf(items[j].fields)
  }

  lemma {:induction false} FoundByName(items: seq<Json>, i: nat)
    requires UniqueNames(items) && i < |items|
    ensures NameOf(items[i].fields) in ByName(items) && ByName(items)[NameOf(items[i].fields)] == items[i].fields
  {
    hide NameOf;
    var last := |items| - 1;
    if i < last {
      assert items[..last][i] == items[i];
      FoundByName(items[..last], i);
      assert NameOf(items[i].fields) != NameOf(items[last].fields);
    }
  }

  /** The guard gives a masked token the last stored token of its name: its own, or an equal one. */
  predicate Restores(x: Json, stored: map<Json, Fields>) {
    x.Obj? && (Truthy(TokenOf(x.fields)) ==> NameOf(x.fields) in stored && TokenOf(stored[NameOf(x.fields)]) == TokenOf(x.fields))
  }

  /** Every entry is an object, and every non-empty token equals the last one of its name. */
  ghost predicate Restorable(items: seq<Json>) {
    AllRestore(items, ByName(items))
  }

  function HideToken(x: Json): Json {
    if x.Obj? then Obj(HideFully(x.fields, "token")) else x
  }

  lemma TokenRestoredIff(x: Json, stored: map<Json, Fields>)
    ensures |KeptToken(HideToken(x), stored)| <= 1 && (KeptToken(HideToken(x), stored) == [x] <==> Restores(x, stored))
  {
    if x.Obj? {
      var y := HideFully(x.fields, "token");
      assert NameOf(y) == NameOf(x.fields);
      if Truthy(TokenOf(x.fields)) {
        assert MaskedValue(TokenOf(y));
        if NameOf(y) in stored {
          var restored := y["token" := TokenOf(stored[NameOf(y)])];
          assert restored["token"] == TokenOf(stored[NameOf(y)]);
          if TokenOf(stored[NameOf(y)]) == TokenOf(x.fields) { assert restored == x.fields; }
        }
      } else {
        assert y == x.fields && !MaskedValue(TokenOf(y));
      }
    }
  }

  lemma SplitEqual<T>(a: seq<T>, b: seq<T>, c: seq<T>, x: T)
    requires |a| <= |c| && |b| <= 1
    ensures a + b == c + [x] <==> a == c && b == [x]
  {
    if a + b == c + [x] {
      assert |a| + |b| == |c| + 1;
      assert (a + b)[..|c|] == a && (c + [x])[..|c|] == c;
      assert (a + b)[|c|] == b[0];
    }
  }

  function HideTokens(items: seq<Json>): seq<Json> {
    HideInEach(items, x => HideFully(x, "token"))
  }

  lemma HideTokensSnoc(front: seq<Json>, last: Json)
    ensures HideTokens(front + [last]) == HideTokens(front) + [HideToken(last)]
  {
    hide HideFully;
  }

  lemma KeptTokensSnoc(front: seq<Json>, last: Json, stored: map<Json, Fields>)
    ensures KeptTokens(front + [last], stored) == KeptTokens(front, stored) + KeptToken(last, stored)
  {
    hide KeptToken;
    assert (front + [last])[..|front + [last]| - 1] == front;
  }

  ghost predicate AllRestore(items: seq<Json>, stored: map<Json, Fields>) {
    forall i | 0 <= i < |items| :: Restores(items[i], stored)
  }

  lemma AllRestoreSnoc(front: seq<Json>, last: Json, stored: map<Json, Fields>)
    ensures AllRestore(front + [last], stored) <==> AllRestore(front, stored) && Restores(last, stored)
  {
    hide Restores;
    var items := front + [last];
    assert items[|front|] == last && forall i | 0 <= i < |front| :: items[i] == front[i];
  }

  lemma LastOf(items: seq<Json>)
    requires items != []
    ensures items == items[..|items| - 1] + [items[|items| - 1]]
  {
  }

  /** Masking and guarding gives a list of tokens back exactly when each can be restored. */
  lemma {:induction false} TokensRestoredIff(items: seq<Json>, stored: map<Json, Fields>)
    ensures |KeptTokens(HideTokens(items), stored)| <= |items|
    ensures KeptTokens(HideTokens(items), stored) == items <==> AllRestore(items, stored)
  {
    if items == [] { return; }
    hide *;
    var front, last := items[..|items| - 1], items[|items| - 1];
    TokensRestoredIff(front, stored);
    RestoredSnoc(front, last, stored);
    LastOf(items);
  }

  lemma RestoredSnoc(front: seq<Json>, last: Json, stored: map<Json, Fields>)
    requires |KeptTokens(HideTokens(front), stored)| <= |front|
    requires KeptTokens(HideTokens(front), stored) == front <==> AllRestore(front, stored)
    ensures |KeptTokens(HideTokens(front + [last]), stored)| <= |front + [last]|
    ensures KeptTokens(HideTokens(front + [last]), stored) == front + [last] <==> AllRestore(front + [last], stored)
  {
    hide *;
    HideTokensSnoc(front, last);
    KeptTokensSnoc(HideTokens(front), HideToken(last), stored);
    TokenRestoredIff(last, stored);
    AllRestoreSnoc(front, last, stored);
    SplitEqual(KeptTokens(HideTokens(front), stored), KeptToken(HideToken(last), stored), front, last);
  }

  /** Distinct names are enough. */
  lemma DistinctNamesRestorable(items: seq<Json>)
    requires UniqueNames(items)
    ensures Restorable(items)
  {
    forall i | 0 <= i < |items|
      ensures Restores(items[i], ByName(items))
    {
      FoundByName(items, i);
    }
  }

  /** The list under `tokens` as the guard leaves it. */
  function GuardedTokens(items: seq<Json>): seq<Json> {
    KeptTokens(HideTokens(items), ByName(items))
  }

  lemma TokensMerge(items: seq<Json>, kept: seq<Json>)
    ensures EchoesIff("tokens", Arr(items), Arr(kept), kept == items)
  {
    hide MergeCredentials;
  }

  /** Named tokens that the guard can restore. */
  ghost predicate GoodTokens(d: Fields) {
    "tokens" in d && d["tokens"].Arr? ==> Restorable(d["tokens"].items)
  }

  lemma TokensField(stored: Fields, d: Fields, r: Fields)
    requires Agrees(stored, Obj(d))
    requires Field(r, "tokens") == if "tokens" in d && d["tokens"].Arr? then Some(Arr(GuardedTokens(d["tokens"].items))) else Field(d, "tokens")
    ensures FieldEchoesIff(stored, r, "tokens", GoodAt(d, "tokens") && GoodTokens(d))
  {
    if "tokens" in d {
      assert AgreesField("tokens", stored["tokens"], d["tokens"]);
      if d["tokens"].Arr? {
        TokensRestoredIff(d["tokens"].items, ByName(d["tokens"].items));
        TokensMerge(d["tokens"].items, GuardedTokens(d["tokens"].items));
      } else {
        AgreesEchoes("tokens", stored["tokens"], d["tokens"]);
      }
    }
    hide EchoesIff, Agrees, AgreesField, Restores, KeptTokens, ByName;
  }

  /** Every field but `tokens` is like that of a leaf; `tokens` is what the guard makes of the list. */
  lemma HuggingfaceFields(stored: Fields, d: Fields)
    requires Agrees(stored, Obj(d)) && ("token" in d ==> Scalar(d["token"]))
    ensures var r := PreserveHuggingface(MaskHuggingface(d), stored);
            && (forall key | key != "tokens" :: LeafField(stored, d, r, key))
            && Field(r, "tokens") == if "tokens" in d && d["tokens"].Arr? then Some(Arr(GuardedTokens(d["tokens"].items))) else Field(d, "tokens")
  {
    var m := MaskHuggingface(d);
    var first := PreserveSecret(m, stored, "token");
    var r := PreserveTokens(first, stored);
    if "token" in d {
      ScalarAgrees(stored, d, "token");
      FullyHiddenEchoes("token", d["token"]);
    }
    PreserveSecretField(m, stored, "token", "tokens");
    if "tokens" in d && d["tokens"].Arr? { assert AgreesField("tokens", stored["tokens"], d["tokens"]); }
    hide EchoesIff, Agrees, GoodAt;
    forall key | key != "tokens"
      ensures LeafField(stored, d, r, key)
    {
      PreserveSecretField(m, stored, "token", key);
      hide PreserveSecret, HideInEach, KeptTokens, ByName;
    }
  }

  lemma HuggingfaceLeaf(stored: Fields, d: Fields)
    requires Agrees(stored, Obj(d)) && ("token" in d ==> Scalar(d["token"]))
    ensures ObjectEchoesIff(stored, PreserveHuggingface(MaskHuggingface(d), stored), UniqueLists(Obj(d)) && GoodTokens(d))
  {
    var r := PreserveHuggingface(MaskHuggingface(d), stored);
    var bad := BadKeys(d) + if GoodTokens(d) then {} else {"tokens"};
    HuggingfaceFields(stored, d);
    TokensField(stored, d, r);
    NoBadKeys(d);
    hide ObjectEchoesIff, FieldEchoesIff, LeafField, Agrees, UniqueField, GoodTokens, PreserveHuggingface, MaskHuggingface;
    forall key
      ensures EchoesUnless(stored, r, key, bad)
    {
      if key != "tokens" { LeafFieldEchoes(stored, d, r, key); }
    }
    Collect(stored, r, bad);
  }

  lemma AgreesUnder(stored: Fields, d: Fields, key: string)
    requires Agrees(stored, Obj(d)) && key in d && d[key].Obj?
    ensures key in stored && stored[key].Obj? && Agrees(stored[key].fields, Obj(Under(d, key))) && Under(stored, key) == stored[key].fields
    ensures UniqueLists(Obj(Under(d, key))) <==> GoodAt(d, key)
  {
    assert AgreesField(key, stored[key], d[key]);
    assert Obj(Under(d, key)) == d[key];
  }

  lemma ObjectTripped(stored: Fields, d: Fields, r: Fields, key: string, edited: Fields, good: bool)
    requires Agrees(stored, Obj(d)) && EditsUnder(r, d, key, edited)
    requires if key in d && d[key].Obj? then ObjectEchoesIff(Under(stored, key), edited, good) else good == GoodAt(d, key)
    ensures FieldEchoesIff(stored, r, key, good)
  {
    if key in d && d[key].Obj? {
      AgreesUnder(stored, d, key);
      hide Agrees, ObjectEchoesIff, EchoesIff;
      EchoObject(key, stored[key], edited, good);
    } else {
      hide Agrees, EchoesIff, UniqueField;
      LeafFieldEchoes(stored, d, r, key);
    }
  }

  /** Masking and guarding the same object in turn. */
  lemma EditsCompose(d: Fields, m: Fields, r: Fields, key: string, mask: Fields, guarded: Fields, edited: Fields)
    requires EditsUnder(m, d, key, mask) && EditsUnder(r, m, key, guarded) && (Under(m, key) == mask ==> guarded == edited)
    ensures EditsUnder(r, d, key, edited)
  {
  }

  lemma MaskCloudEdits(d: Fields)
    ensures var m := MaskCloud(d);
            && EditsUnder(m, d, "aws", MaskAws(Under(d, "aws")))
            && EditsUnder(m, d, "gcp", HideFully(Under(d, "gcp"), "service_account_json"))
            && EditsUnder(m, d, "azure", HideFully(Under(d, "azure"), "client_secret"))
            && EditsUnder(m, d, "ibm", HidePartly(Under(d, "ibm"), "api_key"))
    ensures forall key | !CloudKey(key) :: Field(MaskCloud(d), key) == Field(d, key)
  {
    hide MaskAws, HideFully, HidePartly;
  }

  lemma MaskTopEdits(d: Fields)
    ensures var m := MaskConfig(d);
            && EditsUnder(m, d, "cloud", MaskCloud(Under(d, "cloud")))
            && EditsUnder(m, d, "vectordb", MaskVectordb(Under(d, "vectordb")))
            && EditsUnder(m, d, "depin", MaskDepin(Under(d, "depin")))
            && EditsUnder(m, d, "huggingface", MaskHuggingface(Under(d, "huggingface")))
    ensures forall key | !TopKey(key) ::
              Field(MaskConfig(d), key) == Field(d, key)
  {
    hide MaskCloud, MaskVectordb, MaskDepin, MaskHuggingface;
  }

  /** A secret is text or null, as the settings model guarantees. */
  ghost predicate TypedAt(d: Fields, path: seq<string>) {
    Lookup(d, path).Some? ==> Scalar(Lookup(d, path).value)
  }

  /** Secrets are text or null. */
  ghost predicate Maskable(d: Fields) {
    forall path | SecretPath(path) :: TypedAt(d, path)
  }

  ghost predicate TokensRestorable(d: Fields) {
    var tokens := Lookup(d, ["huggingface", "tokens"]);
    tokens.Some? && tokens.value.Arr? ==> Restorable(tokens.value.items)
  }

  lemma TypedBelow(d: Fields, path: seq<string>)
    requires |path| > 1 && TypedAt(d, path)
    ensures TypedAt(Under(d, path[0]), path[1..])
  {
    LookupStep(d, path);
  }

  lemma TypedLast(d: Fields, field: string)
    requires TypedAt(d, [field])
    ensures field in d ==> Scalar(d[field])
  {
    LookupLast(d, field);
  }

  lemma TypedPair(d: Fields, key: string, field: string)
    requires TypedAt(d, [key, field])
    ensures field in Under(d, key) ==> Scalar(Under(d, key)[field])
  {
    assert [key, field][1..] == [field];
    TypedBelow(d, [key, field]);
    TypedLast(Under(d, key), field);
  }

  lemma AwsTrip(s: Fields, d: Fields)
    requires Agrees(s, Obj(d)) && TypedAt(d, ["aws", "access_key_id"]) && TypedAt(d, ["aws", "secret_access_key"])
    ensures "aws" in d && d["aws"].Obj? ==> ObjectEchoesIff(Under(s, "aws"), PreserveAws(MaskAws(Under(d, "aws")), Under(s, "aws")), GoodAt(d, "aws"))
  {
    TypedPair(d, "aws", "access_key_id");
    TypedPair(d, "aws", "secret_access_key");
    if "aws" in d && d["aws"].Obj? {
      AgreesUnder(s, d, "aws");
      hide Agrees, ObjectEchoesIff, PreserveAws, MaskAws;
      AwsLeaf(Under(s, "aws"), Under(d, "aws"));
    }
  }

  lemma FullTrip(s: Fields, d: Fields, key: string, field: string)
    requires Agrees(s, Obj(d)) && TypedAt(d, [key, field])
    ensures key in d && d[key].Obj? ==>
              ObjectEchoesIff(Under(s, key), PreserveSecret(HideFully(Under(d, key), field), Under(s, key), field), GoodAt(d, key))
  {
    TypedPair(d, key, field);
    if key in d && d[key].Obj? {
      AgreesUnder(s, d, key);
      hide Agrees, ObjectEchoesIff, PreserveSecret, HideFully;
      FullLeaf(Under(s, key), Under(d, key), field);
    }
  }

  lemma PartTrip(s: Fields, d: Fields, key: string, field: string)
    requires Agrees(s, Obj(d)) && TypedAt(d, [key, field])
    ensures key in d && d[key].Obj? ==>
              ObjectEchoesIff(Under(s, key), PreserveSecret(HidePartly(Under(d, key), field), Under(s, key), field), GoodAt(d, key))
  {
    TypedPair(d, key, field);
    if key in d && d[key].Obj? {
      AgreesUnder(s, d, key);
      hide Agrees, ObjectEchoesIff, PreserveSecret, HidePartly;
      PartLeaf(Under(s, key), Under(d, key), field);
    }
  }

  /** The round trip under one key: mask, guard, merge. */
  lemma KeyTripped(s: Fields, d: Fields, m: Fields, r: Fields, key: string, mask: Fields, guarded: Fields, edited: Fields, good: bool)
    requires Agrees(s, Obj(d)) && EditsUnder(m, d, key, mask) && EditsUnder(r, m, key, guarded)
    requires Under(m, key) == mask ==> guarded == edited
    requires if key in d && d[key].Obj? then ObjectEchoesIff(Under(s, key), edited, good) else good == GoodAt(d, key)
    ensures FieldEchoesIff(s, r, key, good)
  {
    hide Agrees, ObjectEchoesIff, EditsUnder, FieldEchoesIff, Under, GoodAt;
    EditsCompose(d, m, r, key, mask, guarded, edited);
    ObjectTripped(s, d, r, key, edited, good);
  }

  /** A key that neither the mask nor the guard touches. */
  lemma Untouched(s: Fields, d: Fields, r: Fields, key: string)
    requires Agrees(s, Obj(d)) && Field(r, key) == Field(d, key)
    ensures FieldEchoesIff(s, r, key, GoodAt(d, key))
  {
    hide Agrees, EchoesIff, UniqueField;
    LeafFieldEchoes(s, d, r, key);
  }

  ghost predicate CloudTyped(d: Fields) {
    && TypedAt(d, ["aws", "access_key_id"]) && TypedAt(d, ["aws", "secret_access_key"]) && TypedAt(d, ["gcp", "service_account_json"])
    && TypedAt(d, ["azure", "client_secret"]) && TypedAt(d, ["ibm", "api_key"])
  }

  lemma CloudKeyTrip(s: Fields, d: Fields, key: string)
    requires Agrees(s, Obj(d)) && CloudTyped(d)
    ensures FieldEchoesIff(s, PreserveCloud(MaskCloud(d), s), key, GoodAt(d, key))
  {
    var m := MaskCloud(d);
    var r := PreserveCloud(m, s);
    MaskCloudEdits(d);
    CloudEdits(m, s);
    hide Agrees, ObjectEchoesIff, FieldEchoesIff, GoodAt, EditsUnder, TypedAt, Under, MaskCloud, PreserveCloud, MaskAws, PreserveAws, PreserveSecret, HideFully, HidePartly;
    if key == "aws" {
      AwsTrip(s, d);
      var mask := MaskAws(Under(d, "aws"));
      KeyTripped(s, d, m, r, "aws", mask, PreserveAws(Under(m, "aws"), Under(s, "aws")), PreserveAws(mask, Under(s, "aws")), GoodAt(d, "aws"));
    } else if key == "gcp" {
      FullTrip(s, d, "gcp", "service_account_json");
      var mask, field := HideFully(Under(d, "gcp"), "service_account_json"), "service_account_json";
      KeyTripped(s, d, m, r, "gcp", mask, PreserveSecret(Under(m, "gcp"), Under(s, "gcp"), field), PreserveSecret(mask, Under(s, "gcp"), field),
                 GoodAt(d, "gcp"));
    } else if key == "azure" {
      FullTrip(s, d, "azure", "client_secret");
      var mask, field := HideFully(Under(d, "azure"), "client_secret"), "client_secret";
      KeyTripped(s, d, m, r, "azure", mask, PreserveSecret(Under(m, "azure"), Under(s, "azure"), field),
                 PreserveSecret(mask, Under(s, "azure"), field),
                 GoodAt(d, "azure"));
    } else if key == "ibm" {
      PartTrip(s, d, "ibm", "api_key");
      var mask := HidePartly(Under(d, "ibm"), "api_key");
      KeyTripped(s, d, m, r, "ibm", mask, PreserveSecret(Under(m, "ibm"), Under(s, "ibm"), "api_key"), PreserveSecret(mask, Under(s, "ibm"), "api_key"),
                 GoodAt(d, "ibm"));
    } else {
      assert !CloudKey(key);
      Untouched(s, d, r, key);
    }
  }

  lemma CloudTrip(s: Fields, d: Fields)
    requires Agrees(s, Obj(d)) && CloudTyped(d)
    ensures ObjectEchoesIff(s, PreserveCloud(MaskCloud(d), s), UniqueLists(Obj(d)))
  {
    hide *;
    forall key
      ensures FieldEchoesIff(s, PreserveCloud(MaskCloud(d), s), key, GoodAt(d, key))
    {
      CloudKeyTrip(s, d, key);
    }
    AllTripped(s, d, PreserveCloud(MaskCloud(d), s));
  }

  lemma AllTripped(s: Fields, d: Fields, r: Fields)
    requires forall key :: FieldEchoesIff(s, r, key, GoodAt(d, key))
    ensures ObjectEchoesIff(s, r, UniqueLists(Obj(d)))
  {
    NoBadKeys(d);
    hide ObjectEchoesIff, FieldEchoesIff, UniqueField, UniqueLists;
    forall key
      ensures EchoesUnless(s, r, key, BadKeys(d))
    {
      assert FieldEchoesIff(s, r, key, GoodAt(d, key));
      assert key !in BadKeys(d) <==> GoodAt(d, key);
    }
    Collect(s, r, BadKeys(d));
  }

  /** An object that holds one object of secrets. */
  lemma NestedTrip(s: Fields, d: Fields, key: string, mask: Fields, edited: Fields, m: Fields, r: Fields, guarded: Fields)
    requires Agrees(s, Obj(d)) && EditsUnder(m, d, key, mask) && EditsUnder(r, m, key, guarded)
    requires Under(m, key) == mask ==> guarded == edited
    requires forall k | k != key :: Field(m, k) == Field(d, k) && Field(r, k) == Field(m, k)
    requires key in d && d[key].Obj? ==> ObjectEchoesIff(Under(s, key), edited, GoodAt(d, key))
    ensures ObjectEchoesIff(s, r, UniqueLists(Obj(d)))
  {
    hide Agrees, ObjectEchoesIff, FieldEchoesIff, EditsUnder, Under, GoodAt, UniqueLists;
    KeyTripped(s, d, m, r, key, mask, guarded, edited, GoodAt(d, key));
    forall k
      ensures FieldEchoesIff(s, r, k, GoodAt(d, k))
    {
      if k != key {
        assert Field(m, k) == Field(d, k);
        Untouched(s, d, r, k);
      }
    }
    AllTripped(s, d, r);
  }

  lemma VectordbTrip(s: Fields, d: Fields)
    requires Agrees(s, Obj(d)) && TypedAt(d, ["chroma", "api_key"])
    ensures ObjectEchoesIff(s, PreserveVectordb(MaskVectordb(d), s), UniqueLists(Obj(d)))
  {
    FullTrip(s, d, "chroma", "api_key");
    var m := MaskVectordb(d);
    var mask, r := HideFully(Under(d, "chroma"), "api_key"), PreserveVectordb(m, s);
    var guarded := PreserveSecret(Under(m, "chroma"), Under(s, "chroma"), "api_key");
    hide Agrees, ObjectEchoesIff, GoodAt, UniqueLists, TypedAt, HideFully, PreserveSecret;
    assert EditsUnder(m, d, "chroma", mask) && EditsUnder(r, m, "chroma", guarded);
    assert forall k | k != "chroma" :: Field(m, k) == Field(d, k) && Field(r, k) == Field(m, k);
    NestedTrip(s, d, "chroma", mask, PreserveSecret(mask, Under(s, "chroma"), "api_key"), m, r, guarded);
  }

  lemma DepinTrip(s: Fields, d: Fields)
    requires Agrees(s, Obj(d)) && TypedAt(d, ["nosana", "wallet_private_key"])
    ensures ObjectEchoesIff(s, PreserveDepin(MaskDepin(d), s), UniqueLists(Obj(d)))
  {
    TypedPair(d, "nosana", "wallet_private_key");
    var m := MaskDepin(d);
    var mask, r := MaskNosana(Under(d, "nosana")), PreserveDepin(m, s);
    var guarded := PreserveSecret(Under(m, "nosana"), Under(s, "nosana"), "wallet_private_key");
    var edited := PreserveSecret(mask, Under(s, "nosana"), "wallet_private_key");
    if "nosana" in d && d["nosana"].Obj? {
      AgreesUnder(s, d, "nosana");
      NosanaLeaf(Under(s, "nosana"), Under(d, "nosana"));
    }
    hide Agrees, ObjectEchoesIff, GoodAt, UniqueLists, TypedAt, MaskNosana, PreserveSecret;
    assert EditsUnder(m, d, "nosana", mask) && EditsUnder(r, m, "nosana", guarded);
    assert forall k | k != "nosana" :: Field(m, k) == Field(d, k) && Field(r, k) == Field(m, k);
    NestedTrip(s, d, "nosana", mask, edited, m, r, guarded);
  }

  lemma TypedUnder(d: Fields, key: string, a: string, b: string)
    requires Maskable(d) && SecretPath([key, a, b])
    ensures TypedAt(Under(d, key), [a, b])
  {
    assert [key, a, b][1..] == [a, b];
    TypedBelow(d, [key, a, b]);
  }

  lemma HuggingfaceTrip(s: Fields, d: Fields)
    requires Agrees(s, Obj(d)) && Maskable(d)
    ensures var key := "huggingface";
            if key in d && d[key].Obj? then
              ObjectEchoesIff(Under(s, key), PreserveHuggingface(MaskHuggingface(Under(d, key)), Under(s, key)), GoodAt(d, key) && TokensRestorable(d))
            else TokensRestorable(d)
  {
    var key := "huggingface";
    assert SecretPath([key, "token"]) && TypedAt(d, [key, "token"]);
    TypedPair(d, key, "token");
    assert [key, "tokens"][1..] == ["tokens"];
    LookupStep(d, [key, "tokens"]);
    LookupLast(Under(d, key), "tokens");
    if key in d && d[key].Obj? {
      AgreesUnder(s, d, key);
      assert TokensRestorable(d) <==> GoodTokens(Under(d, key));
      hide Agrees, ObjectEchoesIff, PreserveHuggingface, MaskHuggingface, TokensRestorable, GoodTokens, GoodAt, UniqueLists, SecretPath, TypedAt;
      HuggingfaceLeaf(Under(s, key), Under(d, key));
    }
  }

  lemma CloudUnder(s: Fields, d: Fields)
    requires Agrees(s, Obj(d)) && Maskable(d)
    ensures "cloud" in d && d["cloud"].Obj? ==> ObjectEchoesIff(Under(s, "cloud"), PreserveCloud(MaskCloud(Under(d, "cloud")), Under(s, "cloud")), GoodAt(d, "cloud"))
  {
    TypedUnder(d, "cloud", "aws", "access_key_id");
    TypedUnder(d, "cloud", "aws", "secret_access_key");
    TypedUnder(d, "cloud", "gcp", "service_account_json");
    TypedUnder(d, "cloud", "azure", "client_secret");
    TypedUnder(d, "cloud", "ibm", "api_key");
    if "cloud" in d && d["cloud"].Obj? {
      AgreesUnder(s, d, "cloud");
      hide Agrees, ObjectEchoesIff, GoodAt, UniqueLists, TypedAt, Maskable, PreserveCloud, MaskCloud;
      CloudTrip(Under(s, "cloud"), Under(d, "cloud"));
    }
  }

  lemma NestedUnder(s: Fields, d: Fields)
    requires Agrees(s, Obj(d)) && Maskable(d)
    ensures "vectordb" in d && d["vectordb"].Obj? ==>
              ObjectEchoesIff(Under(s, "vectordb"), PreserveVectordb(MaskVectordb(Under(d, "vectordb")), Under(s, "vectordb")), GoodAt(d, "vectordb"))
    ensures "depin" in d && d["depin"].Obj? ==>
              ObjectEchoesIff(Under(s, "depin"), PreserveDepin(MaskDepin(Under(d, "depin")), Under(s, "depin")), GoodAt(d, "depin"))
  {
    TypedUnder(d, "vectordb", "chroma", "api_key");
    TypedUnder(d, "depin", "nosana", "wallet_private_key");
    if "vectordb" in d && d["vectordb"].Obj? {
      AgreesUnder(s, d, "vectordb");
      VectordbTrip(Under(s, "vectordb"), Under(d, "vectordb"));
    }
    if "depin" in d && d["depin"].Obj? {
      AgreesUnder(s, d, "depin");
      DepinTrip(Under(s, "depin"), Under(d, "depin"));
    }
    hide Agrees, ObjectEchoesIff, GoodAt, UniqueLists, TypedAt, Maskable, PreserveVectordb, PreserveDepin, MaskVectordb, MaskDepin;
  }

  lemma TopKeyTrip(s: Fields, d: Fields, key: string)
    requires Agrees(s, Obj(d)) && Maskable(d)
    ensures FieldEchoesIff(s, PreserveMasked(MaskConfig(d), s), key, GoodAt(d, key) && (key == "huggingface" ==> TokensRestorable(d)))
  {
    var m := MaskConfig(d);
    var r := PreserveMasked(m, s);
    MaskTopEdits(d);
    TopEdits(m, s);
    hide Agrees, ObjectEchoesIff, FieldEchoesIff, GoodAt, EditsUnder, Maskable, TokensRestorable, Under, MaskConfig, PreserveMasked, MaskCloud, PreserveCloud, PreserveVectordb, PreserveDepin,
         MaskVectordb, MaskDepin, MaskHuggingface, PreserveHuggingface;
    if key == "cloud" {
      CloudUnder(s, d);
      var mask := MaskCloud(Under(d, "cloud"));
      KeyTripped(s, d, m, r, "cloud", mask, PreserveCloud(Under(m, "cloud"), Under(s, "cloud")), PreserveCloud(mask, Under(s, "cloud")),
                 GoodAt(d, "cloud"));
    } else if key == "vectordb" {
      NestedUnder(s, d);
      var mask := MaskVectordb(Under(d, "vectordb"));
      KeyTripped(s, d, m, r, "vectordb", mask, PreserveVectordb(Under(m, "vectordb"), Under(s, "vectordb")),
                 PreserveVectordb(mask, Under(s, "vectordb")),
                 GoodAt(d, "vectordb"));
    } else if key == "depin" {
      NestedUnder(s, d);
      var mask := MaskDepin(Under(d, "depin"));
      KeyTripped(s, d, m, r, "depin", mask, PreserveDepin(Under(m, "depin"), Under(s, "depin")), PreserveDepin(mask, Under(s, "depin")),
                 GoodAt(d, "depin"));
    } else if key == "huggingface" {
      HuggingfaceTrip(s, d);
      var mask := MaskHuggingface(Under(d, "huggingface"));
      KeyTripped(s, d, m, r, "huggingface", mask, PreserveHuggingface(Under(m, "huggingface"), Under(s, "huggingface")),
                 PreserveHuggingface(mask, Under(s, "huggingface")), GoodAt(d, "huggingface") && TokensRestorable(d));
    } else {
      assert !TopKey(key);
      Untouched(s, d, r, key);
    }
  }

  lemma TopTrip(s: Fields, d: Fields)
    requires Agrees(s, Obj(d)) && Maskable(d)
    ensures ObjectEchoesIff(s, PreserveMasked(MaskConfig(d), s), UniqueLists(Obj(d)) && TokensRestorable(d))
  {
    var r := PreserveMasked(MaskConfig(d), s);
    var bad := BadKeys(d) + if TokensRestorable(d) then {} else {"huggingface"};
    NoBadKeys(d);
    hide Agrees, Maskable, ObjectEchoesIff, FieldEchoesIff, UniqueField, UniqueLists, TokensRestorable, PreserveMasked, MaskConfig;
    forall key
      ensures EchoesUnless(s, r, key, bad)
    {
      TopKeyTrip(s, d, key);
      assert key !in bad <==> GoodAt(d, key) && (key == "huggingface" ==> TokensRestorable(d));
    }
    Collect(s, r, bad);
  }

  ghost predicate Unchanged(row: Fields, settings: Fields) {
    Posted(Some(row), MaskConfig(settings)) == Some(row)
  }

  /** Posting the masked view of the live settings back leaves the stored row as it is if and only if no credential list
      repeats an id and every non-empty named token equals the last one of its name. */
  lemma MaskedRoundTripIff(row: Fields, settings: Fields)
    requires "providers" in row && row["providers"].Obj? && Agrees(row["providers"].fields, Obj(settings)) && Maskable(settings)
    ensures Unchanged(row, settings) <==> UniqueLists(Obj(settings)) && TokensRestorable(settings)
  {
    hide *;
    var stored := row["providers"].fields;
    var guarded := PreserveMasked(MaskConfig(settings), stored);
    var good, n := UniqueLists(Obj(settings)) && TokensRestorable(settings), map["providers" := Obj(guarded)];
    TopTrip(stored, settings);
    EchoObject("providers", row["providers"], guarded, good);
    OneFieldEchoes(row, n, "providers", good);
    SavedEchoes(row, n, good);
    UnchangedIs(row, settings);
  }

  lemma UnchangedIs(row: Fields, settings: Fields)
    requires "providers" in row && row["providers"].Obj?
    ensures var guarded := PreserveMasked(MaskConfig(settings), row["providers"].fields);
            Unchanged(row, settings) <==> Saved(Some(row), Obj(map["providers" := Obj(guarded)])) == Some(row)
  {
    hide PreserveMasked, MaskConfig, Saved;
  }

  lemma OneFieldEchoes(row: Fields, n: Fields, key: string, good: bool)
    requires n.Keys == {key} && key in row && EchoesIff(key, row[key], n[key], good)
    ensures ObjectEchoesIff(row, n, good)
  {
    hide EchoesIff, ObjectEchoesIff;
    Collect(row, n, if good then {} else {key});
  }

  lemma SavedEchoes(row: Fields, n: Fields, good: bool)
    requires ObjectEchoesIff(row, n, good)
    ensures Saved(Some(row), Obj(n)) == Some(row) <==> good
  {
    hide Merge, Mergeable;
  }
}
