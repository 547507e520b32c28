/**
 What the masked view of the provider settings reveals.  The settings are read against a table of the places where secrets
 stand; the view is proved to be the settings with exactly those places masked, so that two settings look the same exactly
 when they differ in nothing but masked characters.
 */
module ConfigView {
  import opened Basics
  import opened Credentials
  import opened ConfigMerge
  import opened ConfigMask

  /** Where a value stands.  A `Secret` is never shown, of a `Shown` one the first and the last four characters are. */
  datatype Place =
    | Top | Cloud | Aws | Gcp | Azure | Ibm | Vectordb | Chroma | Depin | Nosana | Keys | KeyEntry | Huggingface | Tokens | TokenEntry
    | Secret | Shown | Plain

  function CloudPlace(key: string): Place {
    if key == "aws" then Aws else if key == "gcp" then Gcp else if key == "azure" then Azure else if key == "ibm" then Ibm else Plain
  }

  function TopPlace(key: string): Place {
    if key == "cloud" then Cloud
    else if key == "vectordb" then Vectordb
    else if key == "depin" then Depin
    else if key == "huggingface" then Huggingface
    else Plain
  }

  /** The place of a field. */
  function FieldPlace(p: Place, key: string): Place {
    match p
    case Top => TopPlace(key)
    case Cloud => CloudPlace(key)
    case Aws => if key == "secret_access_key" then Secret else if key == "access_key_id" then Shown else Plain
    case Gcp => if key == "service_account_json" then Secret else Plain
    case Azure => if key == "client_secret" then Secret else Plain
    case Ibm => if key == "api_key" then Shown else Plain
    case Vectordb => if key == "chroma" then Chroma else Plain
    case Chroma => if key == "api_key" then Secret else Plain
    case Depin => if key == "nosana" then Nosana else Plain
    case Nosana => if key == "wallet_private_key" then Secret else if key == "api_keys" then Keys else Plain
    case KeyEntry => if key == "key" then Shown else Plain
    case Huggingface => if key == "token" then Secret else if key == "tokens" then Tokens else Plain
    case TokenEntry => if key == "token" then Secret else Plain
    case _ => Plain
  }

  /** The place of a list item. */
  function ItemPlace(p: Place): Place {
    match p
    case Keys => KeyEntry
    case Tokens => TokenEntry
    case _ => Plain
  }

  /** What Python takes for true. */
  predicate NonEmpty(v: Json) {
    v != Null && v != Bool(false) && v != Str("") && v != Arr([]) && v != Obj(map[]) && v != Num("0") && v != Num("0.0")
  }

  function View(v: Json, p: Place): Json
    decreases v
  {
    if p == Secret then if NonEmpty(v) then Str("********") else v
    else if p == Shown then if v.Str? && |v.s| >= 8 then Str(v.s[..4] + "..." + v.s[|v.s| - 4..]) else v
    else
      match v
      case Obj(fields) => Obj(map key | key in fields :: View(fields[key], FieldPlace(p, key)))
      case Arr(items) => Arr(seq(|items|, i requires 0 <= i < |items| => View(items[i], ItemPlace(p))))
      case _ => v
  }

  // ---------------------------------------------------------------------------------------
  // The view is the settings with those places masked
  // ---------------------------------------------------------------------------------------

  lemma {:induction false} PlainView(v: Json)
    ensures View(v, Plain) == v
    decreases v
  {
    match v
    case Obj(fields) =>
      forall key | key in fields ensures View(fields[key], Plain) == fields[key] { PlainView(fields[key]); }
      assert (map key | key in fields :: View(fields[key], FieldPlace(Plain, key))) == fields;
    case Arr(items) =>
      forall i | 0 <= i < |items| ensures View(items[i], Plain) == items[i] { PlainView(items[i]); }
      assert seq(|items|, i requires 0 <= i < |items| => View(items[i], ItemPlace(Plain))) == items;
    case _ =>
  }

  predicate Inner(p: Place) {
    p != Secret && p != Shown
  }

  /** A value that is not an object shows as it is where only objects hold secrets. */
  lemma NoObjectView(v: Json, p: Place)
    requires Inner(p) && ItemPlace(p) == Plain && !v.Obj?
    ensures View(v, p) == v
  {
    if v.Arr? {
      forall i | 0 <= i < |v.items| ensures View(v.items[i], Plain) == v.items[i] { PlainView(v.items[i]); }
      assert seq(|v.items|, i requires 0 <= i < |v.items| => View(v.items[i], ItemPlace(p))) == v.items;
    }
  }

  /** The field is the view of the live one. */
  ghost predicate ViewAt(d: Fields, m: Fields, p: Place, key: string) {
    Field(m, key) == if key in d then Some(View(d[key], FieldPlace(p, key))) else None
  }

  lemma ViewOfFields(d: Fields, m: Fields, p: Place)
    requires Inner(p) && forall key :: ViewAt(d, m, p, key)
    ensures View(Obj(d), p) == Obj(m)
  {
    hide View, FieldPlace;
    var shown := map key | key in d :: View(d[key], FieldPlace(p, key));
    forall key
      ensures Field(shown, key) == Field(m, key)
    {
      assert ViewAt(d, m, p, key);
    }
    SameFields(shown, m);
    ViewOfObject(d, p);
  }

  lemma ViewOfObject(d: Fields, p: Place)
    requires Inner(p)
    ensures View(Obj(d), p) == Obj(map key | key in d :: View(d[key], FieldPlace(p, key)))
  {
  }

  lemma Unmasked(d: Fields, m: Fields, p: Place, key: string)
    requires FieldPlace(p, key) == Plain && Field(m, key) == Field(d, key)
    ensures ViewAt(d, m, p, key)
  {
    if key in d { PlainView(d[key]); }
    hide View, FieldPlace;
  }

  /** A key under which an object was edited. */
  lemma EditedView(d: Fields, m: Fields, p: Place, key: string, edited: Fields)
    requires Inner(FieldPlace(p, key)) && ItemPlace(FieldPlace(p, key)) == Plain && EditsUnder(m, d, key, edited)
    requires View(Obj(Under(d, key)), FieldPlace(p, key)) == Obj(edited)
    ensures ViewAt(d, m, p, key)
  {
    if key in d && !d[key].Obj? { NoObjectView(d[key], FieldPlace(p, key)); }
    hide View, FieldPlace, ItemPlace;
    if key in d && d[key].Obj? { assert Obj(Under(d, key)) == d[key]; }
  }

  lemma HiddenField(d: Fields, field: string)
    ensures Field(HideFully(d, field), field) == if field in d then Some(View(d[field], Secret)) else None
    ensures forall key | key != field :: Field(HideFully(d, field), key) == Field(d, key)
  {
  }

  lemma ShownField(d: Fields, field: string)
    ensures Field(HidePartly(d, field), field) == if field in d then Some(View(d[field], Shown)) else None
    ensures forall key | key != field :: Field(HidePartly(d, field), key) == Field(d, key)
  {
  }

  /** An object with one fully masked field. */
  lemma OneHidden(d: Fields, p: Place, field: string)
    requires Inner(p) && FieldPlace(p, field) == Secret && forall key | key != field :: FieldPlace(p, key) == Plain
    ensures View(Obj(d), p) == Obj(HideFully(d, field))
  {
    var m := HideFully(d, field);
    HiddenField(d, field);
    hide View, FieldPlace, HideFully;
    forall key ensures ViewAt(d, m, p, key) { if key != field { Unmasked(d, m, p, key); } }
    ViewOfFields(d, m, p);
  }

  lemma OneShown(d: Fields, p: Place, field: string)
    requires Inner(p) && FieldPlace(p, field) == Shown && forall key | key != field :: FieldPlace(p, key) == Plain
    ensures View(Obj(d), p) == Obj(HidePartly(d, field))
  {
    var m := HidePartly(d, field);
    ShownField(d, field);
    hide View, FieldPlace, HidePartly;
    forall key ensures ViewAt(d, m, p, key) { if key != field { Unmasked(d, m, p, key); } }
    ViewOfFields(d, m, p);
  }

  lemma AwsView(d: Fields)
    ensures View(Obj(d), Aws) == Obj(MaskAws(d))
  {
    var first := HideFully(d, "secret_access_key");
    var m := HidePartly(first, "access_key_id");
    HiddenField(d, "secret_access_key");
    ShownField(first, "access_key_id");
    assert Field(first, "access_key_id") == Field(d, "access_key_id");
    hide View, HideFully, HidePartly;
    forall key ensures ViewAt(d, m, Aws, key) { if key != "secret_access_key" && key != "access_key_id" { Unmasked(d, m, Aws, key); } }
    ViewOfFields(d, m, Aws);
  }

  lemma CloudView(d: Fields)
    ensures View(Obj(d), Cloud) == Obj(MaskCloud(d))
  {
    var m := MaskCloud(d);
    MaskCloudEdits(d);
    AwsView(Under(d, "aws"));
    OneHidden(Under(d, "gcp"), Gcp, "service_account_json");
    OneHidden(Under(d, "azure"), Azure, "client_secret");
    OneShown(Under(d, "ibm"), Ibm, "api_key");
    hide View, Under, EditsUnder, MaskAws, MaskCloud, HideFully, HidePartly;
    forall key
      ensures ViewAt(d, m, Cloud, key)
    {
      if key == "aws" { EditedView(d, m, Cloud, key, MaskAws(Under(d, "aws"))); }
      else if key == "gcp" { EditedView(d, m, Cloud, key, HideFully(Under(d, "gcp"), "service_account_json")); }
      else if key == "azure" { EditedView(d, m, Cloud, key, HideFully(Under(d, "azure"), "client_secret")); }
      else if key == "ibm" { EditedView(d, m, Cloud, key, HidePartly(Under(d, "ibm"), "api_key")); }
      else { assert !CloudKey(key); Unmasked(d, m, Cloud, key); }
    }
    ViewOfFields(d, m, Cloud);
  }

  /** A list of objects with one masked field each. */
  lemma ListView(d: Fields, field: string, p: Place, hidden: Fields -> Fields)
    requires Inner(p) && Inner(ItemPlace(p)) && ItemPlace(ItemPlace(p)) == Plain && forall key :: FieldPlace(p, key) == Plain
    requires forall x: Fields :: View(Obj(x), ItemPlace(p)) == Obj(hidden(x))
    ensures Field(HideInList(d, field, hidden), field) == if field in d then Some(View(d[field], p)) else None
  {
    if field in d {
      if d[field].Arr? {
        var items := d[field].items;
        forall i | 0 <= i < |items|
          ensures View(items[i], ItemPlace(p)) == if items[i].Obj? then Obj(hidden(items[i].fields)) else items[i]
        {
          if !items[i].Obj? { NoObjectView(items[i], ItemPlace(p)); }
        }
        assert seq(|items|, i requires 0 <= i < |items| => View(items[i], ItemPlace(p))) == HideInEach(items, hidden);
        ViewOfList(items, p);
      } else if d[field].Obj? {
        var x := d[field].fields;
        forall key ensures ViewAt(x, x, p, key) { Unmasked(x, x, p, key); }
        ViewOfFields(x, x, p);
      } else {
        ScalarView(d[field], p);
      }
    }
    hide View;
  }

  lemma ViewOfList(items: seq<Json>, p: Place)
    requires Inner(p)
    ensures View(Arr(items), p) == Arr(seq(|items|, i requires 0 <= i < |items| => View(items[i], ItemPlace(p))))
  {
  }

  lemma ScalarView(v: Json, p: Place)
    requires Inner(p) && !v.Obj? && !v.Arr?
    ensures View(v, p) == v
  {
  }

  lemma NosanaView(d: Fields)
    ensures View(Obj(d), Nosana) == Obj(MaskNosana(d))
  {
    var first := HideFully(d, "wallet_private_key");
    var hidden := x => HidePartly(x, "key");
    var m := HideInList(first, "api_keys", hidden);
    HiddenField(d, "wallet_private_key");
    forall x: Fields ensures View(Obj(x), KeyEntry) == Obj(hidden(x)) { OneShown(x, KeyEntry, "key"); }
    ListView(first, "api_keys", Keys, hidden);
    assert m == MaskNosana(d);
    assert forall key | key != "api_keys" :: Field(m, key) == Field(first, key);
    hide View, HideFully, HideInList, MaskNosana;
    assert Field(first, "api_keys") == Field(d, "api_keys");
    forall key ensures ViewAt(d, m, Nosana, key) { if key != "wallet_private_key" && key != "api_keys" { Unmasked(d, m, Nosana, key); } }
    ViewOfFields(d, m, Nosana);
  }

  lemma HuggingfaceView(d: Fields)
    ensures View(Obj(d), Huggingface) == Obj(MaskHuggingface(d))
  {
    var first := HideFully(d, "token");
    var hidden := x => HideFully(x, "token");
    var m := HideInList(first, "tokens", hidden);
    HiddenField(d, "token");
    forall x: Fields ensures View(Obj(x), TokenEntry) == Obj(hidden(x)) { OneHidden(x, TokenEntry, "token"); }
    ListView(first, "tokens", Tokens, hidden);
    assert m == MaskHuggingface(d);
    assert forall key | key != "tokens" :: Field(m, key) == Field(first, key);
    hide View, HideFully, HideInList, MaskHuggingface;
    assert Field(first, "tokens") == Field(d, "tokens");
    forall key ensures ViewAt(d, m, Huggingface, key) { if key != "token" && key != "tokens" { Unmasked(d, m, Huggingface, key); } }
    ViewOfFields(d, m, Huggingface);
  }

  lemma VectordbView(d: Fields)
    ensures View(Obj(d), Vectordb) == Obj(MaskVectordb(d))
  {
    var m, edited := MaskVectordb(d), HideFully(Under(d, "chroma"), "api_key");
    OneHidden(Under(d, "chroma"), Chroma, "api_key");
    assert EditsUnder(m, d, "chroma", edited) && forall key | key != "chroma" :: Field(m, key) == Field(d, key);
    hide View, HideFully, MaskVectordb, EditsUnder, Under;
    forall key ensures ViewAt(d, m, Vectordb, key) { if key == "chroma" { EditedView(d, m, Vectordb, key, edited); } else { Unmasked(d, m, Vectordb, key); } }
    ViewOfFields(d, m, Vectordb);
  }

  lemma DepinView(d: Fields)
    ensures View(Obj(d), Depin) == Obj(MaskDepin(d))
  {
    var m, edited := MaskDepin(d), MaskNosana(Under(d, "nosana"));
    NosanaView(Under(d, "nosana"));
    assert EditsUnder(m, d, "nosana", edited) && forall key | key != "nosana" :: Field(m, key) == Field(d, key);
    hide View, MaskNosana, MaskDepin, EditsUnder, Under;
    forall key ensures ViewAt(d, m, Depin, key) { if key == "nosana" { EditedView(d, m, Depin, key, edited); } else { Unmasked(d, m, Depin, key); } }
    ViewOfFields(d, m, Depin);
  }

  /** The masked view is the settings with every secret of the table masked and nothing else changed. */
  lemma MaskedIsView(d: Fields)
    ensures Obj(MaskConfig(d)) == View(Obj(d), Top)
  {
    var m := MaskConfig(d);
    MaskTopEdits(d);
    CloudView(Under(d, "cloud"));
    VectordbView(Under(d, "vectordb"));
    DepinView(Under(d, "depin"));
    HuggingfaceView(Under(d, "huggingface"));
    hide View, Under, EditsUnder, MaskConfig, MaskCloud, MaskVectordb, MaskDepin, MaskHuggingface;
    forall key
      ensures ViewAt(d, m, Top, key)
    {
      if key == "cloud" { EditedView(d, m, Top, key, MaskCloud(Under(d, "cloud"))); }
      else if key == "vectordb" { EditedView(d, m, Top, key, MaskVectordb(Under(d, "vectordb"))); }
      else if key == "depin" { EditedView(d, m, Top, key, MaskDepin(Under(d, "depin"))); }
      else if key == "huggingface" { EditedView(d, m, Top, key, MaskHuggingface(Under(d, "huggingface"))); }
      else { assert !TopKey(key); Unmasked(d, m, Top, key); }
    }
    ViewOfFields(d, m, Top);
  }

  // ---------------------------------------------------------------------------------------
  // What the view reveals
  // ---------------------------------------------------------------------------------------

  /** The two texts agree on everything that is shown of them. */
  predicate SameEnds(a: string, b: string) {
    a == b || (|a| >= 8 && |b| >= 8 && a[..4] == b[..4] && a[|a| - 4..] == b[|b| - 4..])
  }

  /** The two values differ in nothing but non-empty secrets and the middle of shown ones. */
  ghost predicate Alike(a: Json, b: Json, p: Place)
    decreases a
  {
    if p == Secret then a == b || (NonEmpty(a) && NonEmpty(b))
    else if p == Shown then a == b || (a.Str? && b.Str? && SameEnds(a.s, b.s))
    else if a.Obj? && b.Obj? then
      a.fields.Keys == b.fields.Keys && forall key | key in a.fields :: Alike(a.fields[key], b.fields[key], FieldPlace(p, key))
    else if a.Arr? && b.Arr? then
      |a.items| == |b.items| && forall i | 0 <= i < |a.items| :: Alike(a.items[i], b.items[i], ItemPlace(p))
    else a == b
  }

  lemma ShownIff(a: Json, b: Json)
    ensures View(a, Shown) == View(b, Shown) <==> Alike(a, b, Shown)
  {
    if a.Str? && b.Str? && |a.s| >= 8 && |b.s| >= 8 {
      var x, y := a.s[..4] + "..." + a.s[|a.s| - 4..], b.s[..4] + "..." + b.s[|b.s| - 4..];
      assert x[..4] == a.s[..4] && x[7..] == a.s[|a.s| - 4..] && y[..4] == b.s[..4] && y[7..] == b.s[|b.s| - 4..];
    }
  }

  function ViewFields(d: Fields, p: Place): Fields {
    map key | key in d :: View(d[key], FieldPlace(p, key))
  }

  lemma ViewFieldsEqual(a: Fields, b: Fields, p: Place)
    requires ViewFields(a, p) == ViewFields(b, p)
    ensures a.Keys == b.Keys && forall key | key in a && key in b :: View(a[key], FieldPlace(p, key)) == View(b[key], FieldPlace(p, key))
  {
    hide View, FieldPlace;
    var x, y := ViewFields(a, p), ViewFields(b, p);
    assert x.Keys == a.Keys && y.Keys == b.Keys;
    forall key | key in a && key in b ensures View(a[key], FieldPlace(p, key)) == View(b[key], FieldPlace(p, key)) { assert x[key] == y[key]; }
  }

  lemma EqualViewFields(a: Fields, b: Fields, p: Place)
    requires a.Keys == b.Keys && forall key | key in a && key in b :: View(a[key], FieldPlace(p, key)) == View(b[key], FieldPlace(p, key))
    ensures ViewFields(a, p) == ViewFields(b, p)
  {
    hide View, FieldPlace;
    forall key
      ensures Field(ViewFields(a, p), key) == Field(ViewFields(b, p), key)
    {
      if key in a.Keys { assert key in b.Keys; } else { assert key !in b.Keys; }
    }
    SameFields(ViewFields(a, p), ViewFields(b, p));
  }

  lemma ObjectsIff(a: Fields, b: Fields, p: Place)
    requires Inner(p)
    requires forall key | key in a && key in b ::
               View(a[key], FieldPlace(p, key)) == View(b[key], FieldPlace(p, key)) <==> Alike(a[key], b[key], FieldPlace(p, key))
    ensures View(Obj(a), p) == View(Obj(b), p) <==> Alike(Obj(a), Obj(b), p)
  {
    ViewOfObject(a, p);
    ViewOfObject(b, p);
    AlikeObjects(a, b, p);
    assert View(Obj(a), p) == Obj(ViewFields(a, p)) && View(Obj(b), p) == Obj(ViewFields(b, p));
    hide View, Alike, FieldPlace, ViewFields;
    if ViewFields(a, p) == ViewFields(b, p) { ViewFieldsEqual(a, b, p); }
    if Alike(Obj(a), Obj(b), p) { EqualViewFields(a, b, p); }
  }

  lemma AlikeObjects(a: Fields, b: Fields, p: Place)
    requires Inner(p)
    ensures Alike(Obj(a), Obj(b), p) <==> a.Keys == b.Keys && forall key | key in a && key in b :: Alike(a[key], b[key], FieldPlace(p, key))
  {
  }

  lemma ListsIff(a: seq<Json>, b: seq<Json>, p: Place)
    requires Inner(p)
    requires forall i | 0 <= i < |a| && i < |b| :: View(a[i], ItemPlace(p)) == View(b[i], ItemPlace(p)) <==> Alike(a[i], b[i], ItemPlace(p))
    ensures View(Arr(a), p) == View(Arr(b), p) <==> Alike(Arr(a), Arr(b), p)
  {
    ViewOfList(a, p);
    ViewOfList(b, p);
    var x, y := seq(|a|, i requires 0 <= i < |a| => View(a[i], ItemPlace(p))), seq(|b|, i requires 0 <= i < |b| => View(b[i], ItemPlace(p)));
    assert Alike(Arr(a), Arr(b), p) <==> |a| == |b| && forall i | 0 <= i < |a| && i < |b| :: Alike(a[i], b[i], ItemPlace(p));
    hide View, Alike, ItemPlace;
    if x == y {
      forall i | 0 <= i < |a| && i < |b| ensures View(a[i], ItemPlace(p)) == View(b[i], ItemPlace(p)) { assert x[i] == y[i]; }
    }
  }

  lemma {:induction false} AlikeIff(a: Json, b: Json, p: Place)
    ensures View(a, p) == View(b, p) <==> Alike(a, b, p)
    decreases a
  {
    if p == Shown {
      ShownIff(a, b);
    } else if p == Secret {
    } else if a.Obj? && b.Obj? {
      forall key | key in a.fields && key in b.fields
        ensures View(a.fields[key], FieldPlace(p, key)) == View(b.fields[key], FieldPlace(p, key)) <==> Alike(a.fields[key], b.fields[key], FieldPlace(p, key))
      {
        AlikeIff(a.fields[key], b.fields[key], FieldPlace(p, key));
      }
      hide View, Alike;
      ObjectsIff(a.fields, b.fields, p);
    } else if a.Arr? && b.Arr? {
      forall i | 0 <= i < |a.items| && i < |b.items|
        ensures View(a.items[i], ItemPlace(p)) == View(b.items[i], ItemPlace(p)) <==> Alike(a.items[i], b.items[i], ItemPlace(p))
      {
        AlikeIff(a.items[i], b.items[i], ItemPlace(p));
      }
      hide View, Alike;
      ListsIff(a.items, b.items, p);
    }
  }

  /** The dashboard shows two settings alike exactly when they differ in nothing but non-empty secrets and the middle of the
      partly shown ones: the view reveals nothing else about them. */
  lemma ViewsEqualIff(a: Fields, b: Fields)
    ensures MaskConfig(a) == MaskConfig(b) <==> Alike(Obj(a), Obj(b), Top)
  {
    MaskedIsView(a);
    MaskedIsView(b);
    AlikeIff(Obj(a), Obj(b), Top);
    hide View, Alike, MaskConfig;
  }
}
