/**
 Credential lists of the provider configuration.  Two lists merge by credential id, `provider:name`: stored credentials
 keep their place, incoming ones are written over them field by field or appended, and a secret that looks masked is
 skipped.
 */
module Credentials {
  import opened Basics

  /** A JSON value.  A number is kept as the text Python prints for it. */
  datatype Json = Null | Bool(b: bool) | Num(text: string) | Str(s: string) | Arr(items: seq<Json>) | Obj(fields: Fields)

  type Fields = map<string, Json>

  const FULL_MASK := "********"

  function Field(m: Fields, key: string): Option<Json> {
    if key in m then Some(m[key]) else None
  }

  predicate Contains(s: string, part: string) {
    part <= s || (s != "" && Contains(s[1..], part))
  }

  function MaskSecret(s: string): string {
    if |s| < 8 then s else s[..4] + "..." + s[|s| - 4..]
  }

  /** `v` is the partial mask of the stored, non-empty string. */
  predicate MaskOf(v: Json, stored: Option<Json>) {
    v.Str? && Contains(v.s, "...") && stored.Some? && stored.value.Str? && stored.value.s != "" && v.s == MaskSecret(stored.value.s)
  }

  // ---------------------------------------------------------------------------------------
  // One credential
  // ---------------------------------------------------------------------------------------

  predicate SecretKey(key: string) {
    key == "key" || key == "value" || key == "mnemonic"
  }

  /** What an incoming field leaves in a stored credential. */
  function MergeSecret(key: string, stored: Option<Json>, v: Json): Option<Json> {
    if SecretKey(key) && v.Str? && (Contains(v.s, "****") || MaskOf(v, stored)) then stored else Some(v)
  }

  function ItemField(x: Fields, y: Fields, key: string): Option<Json> {
    if key in y then MergeSecret(key, Field(x, key), y[key]) else Field(x, key)
  }

  function MergeItem(x: Fields, y: Fields): Fields {
    map key | key in x.Keys + y.Keys && ItemField(x, y, key).Some? :: ItemField(x, y, key).value
  }

  /** How an f-string prints a value; containers are not used as names. */
  function Format(v: Json): string {
    match v
    case Null => "None"
    case Bool(b) => if b then "True" else "False"
    case Num(text) => text
    case Str(s) => s
    case Arr(_) => "[]"
    case Obj(_) => "{}"
  }

  function Text(item: Fields, key: string): string {
    if key in item then Format(item[key]) else ""
  }

  function Id(item: Fields): string {
    Text(item, "provider") + ":" + Text(item, "name")
  }

  /** The item's id can be split in one way only by an item that is merged with it. */
  predicate Robust(y: Fields) {
    && ("provider" in y || ':' !in Text(y, "name"))
    && ("name" in y || ':' !in Text(y, "provider"))
  }

  lemma MergeItemField(x: Fields, y: Fields, key: string)
    ensures Field(MergeItem(x, y), key) == ItemField(x, y, key)
  {
  }

  lemma MergeItemTwice(x: Fields, y: Fields)
    ensures MergeItem(MergeItem(x, y), y) == MergeItem(x, y)
    ensures MergeItem(y, y) == y
  {
    var m := MergeItem(x, y);
    forall key
      ensures Field(MergeItem(m, y), key) == Field(m, key) && Field(MergeItem(y, y), key) == Field(y, key)
    {
      MergeItemField(x, y, key);
      MergeItemField(m, y, key);
      MergeItemField(y, y, key);
      hide MergeItem, MaskOf, Contains;
    }
    SameFields(MergeItem(m, y), m);
    SameFields(MergeItem(y, y), y);
  }

  lemma SameFields(a: Fields, b: Fields)
    requires forall key :: Field(a, key) == Field(b, key)
    ensures a == b
  {
    forall key
      ensures key in a <==> key in b
      ensures key in a && key in b ==> a[key] == b[key]
    {
      assert Field(a, key) == Field(b, key);
    }
  }

  lemma MergedText(x: Fields, y: Fields, key: string)
    requires !SecretKey(key)
    ensures Text(MergeItem(x, y), key) == if key in y then Text(y, key) else Text(x, key)
  {
    MergeItemField(x, y, key);
  }

  lemma LeadingColon(p: string, n: string, name: string)
    requires p + ":" + n == ":" + name
    ensures if p == "" then n == name else ':' in name
  {
    var whole := p + ":" + n;
    if p == "" {
      assert whole[1..] == n && (":" + name)[1..] == name;
    } else {
      assert name[|p| - 1] == (":" + name)[|p|] == whole[|p|] == ':';
    }
  }

  lemma TrailingColon(p: string, n: string, provider: string)
    requires p + ":" + n == provider + ":"
    ensures if n == "" then p == provider else ':' in provider
  {
    var whole := p + ":" + n;
    if n == "" {
      assert whole[..|p|] == p && (provider + ":")[..|provider|] == provider;
    } else {
      assert provider[|p|] == (provider + ":")[|p|] == whole[|p|] == ':';
    }
  }

  /** A robust item keeps the id of the credential it is merged into. */
  lemma RobustKeepsId(x: Fields, y: Fields)
    requires Robust(y) && Id(x) == Id(y)
    ensures Id(MergeItem(x, y)) == Id(y)
  {
    MergedText(x, y, "provider");
    MergedText(x, y, "name");
    hide MergeItem, Format;
    var p, n := Text(x, "provider"), Text(x, "name");
    if "provider" !in y {
      assert Text(y, "provider") == "" && Id(y) == ":" + Text(y, "name");
      LeadingColon(p, n, Text(y, "name"));
    } else if "name" !in y {
      assert Text(y, "name") == "" && Id(y) == Text(y, "provider") + ":";
      TrailingColon(p, n, Text(y, "provider"));
    }
  }

  lemma MergedId(x: Fields, y: Fields)
    ensures Id(MergeItem(x, y)) == (if "provider" in y then Text(y, "provider") else Text(x, "provider")) + ":"
                                   + (if "name" in y then Text(y, "name") else Text(x, "name"))
  {
    MergedText(x, y, "provider");
    MergedText(x, y, "name");
  }

  function Credential(provider: string, name: string): Fields {
    map["provider" := Str(provider), "name" := Str(name)]
  }

  /** A colon in a bare name lets a credential with a provider have the same id. */
  lemma SplitName(name: string, i: nat)
    requires i < |name| && name[i] == ':'
    ensures (":" + name[..i]) + ":" + name[i + 1..] == ":" + name
  {
    assert name == name[..i] + ":" + name[i + 1..];
  }

  lemma SplitProvider(provider: string, i: nat)
    requires i < |provider| && provider[i] == ':'
    ensures provider[..i] + ":" + (provider[i + 1..] + ":") == provider + ":"
  {
    assert provider == provider[..i] + ":" + provider[i + 1..];
  }

  lemma BareNameRenames(y: Fields, i: nat)
    requires "provider" !in y && i < |Text(y, "name")| && Text(y, "name")[i] == ':'
    ensures var x := Credential(":" + Text(y, "name")[..i], Text(y, "name")[i + 1..]);
            Id(x) == Id(y) && Id(MergeItem(x, y)) != Id(y)
  {
    var name := Text(y, "name");
    var x := Credential(":" + name[..i], name[i + 1..]);
    assert "name" in y && Text(y, "provider") == "";
    MergedId(x, y);
    CredentialText(":" + name[..i], name[i + 1..]);
    SplitName(name, i);
    assert Id(x) == Id(y) == ":" + name;
    hide MergeItem, Text, Credential, Id;
    assert Id(MergeItem(x, y)) == (":" + name[..i]) + ":" + name;
    assert |Id(MergeItem(x, y))| > |Id(y)|;
  }

  lemma BareProviderRenames(y: Fields, i: nat)
    requires "name" !in y && i < |Text(y, "provider")| && Text(y, "provider")[i] == ':'
    ensures var x := Credential(Text(y, "provider")[..i], Text(y, "provider")[i + 1..] + ":");
            Id(x) == Id(y) && Id(MergeItem(x, y)) != Id(y)
  {
    var provider := Text(y, "provider");
    var x := Credential(provider[..i], provider[i + 1..] + ":");
    assert "provider" in y && Text(y, "name") == "";
    MergedId(x, y);
    CredentialText(provider[..i], provider[i + 1..] + ":");
    SplitProvider(provider, i);
    assert Id(x) == Id(y) == provider + ":";
    hide MergeItem, Text, Credential, Id;
    assert Id(MergeItem(x, y)) == provider + ":" + (provider[i + 1..] + ":");
    assert |Id(MergeItem(x, y))| > |Id(y)|;
  }

  /** For an item that is not robust there is a stored credential of the same id that the merge renames. */
  lemma FragileRenames(y: Fields) returns (x: Fields)
    requires !Robust(y)
    ensures Id(x) == Id(y) && Id(MergeItem(x, y)) != Id(y)
  {
    hide MergeItem, Text, Credential, Id;
    var name, provider := Text(y, "name"), Text(y, "provider");
    if "provider" !in y && ':' in name {
      var i :| 0 <= i < |name| && name[i] == ':';
      BareNameRenames(y, i);
      x := Credential(":" + name[..i], name[i + 1..]);
    } else {
      var i :| 0 <= i < |provider| && provider[i] == ':';
      BareProviderRenames(y, i);
      x := Credential(provider[..i], provider[i + 1..] + ":");
    }
  }

  lemma CredentialText(provider: string, name: string)
    ensures Text(Credential(provider, name), "provider") == provider && Text(Credential(provider, name), "name") == name
  {
  }

  // ---------------------------------------------------------------------------------------
  // Credential lists
  // ---------------------------------------------------------------------------------------

  /** A Python dictionary: keys in insertion order, overwriting keeps the position. */
  datatype Dict = Dict(order: seq<string>, items: map<string, Fields>)

  const EMPTY := Dict([], map[])

  function SetItem(d: Dict, id: string, item: Fields): Dict {
    Dict(if id in d.items then d.order else d.order + [id], d.items[id := item])
  }

  function Index(existing: seq<Fields>): Dict {
    if existing == [] then EMPTY
    else var last := existing[|existing| - 1]; SetItem(Index(existing[..|existing| - 1]), Id(last), last)
  }

  /** One step of the loop over the incoming items. */
  function AbsorbOne(d: Dict, y: Fields): Dict {
    SetItem(d, Id(y), if Id(y) in d.items then MergeItem(d.items[Id(y)], y) else y)
  }

  function Absorb(d: Dict, incoming: seq<Fields>): Dict {
    if incoming == [] then d else AbsorbOne(Absorb(d, incoming[..|incoming| - 1]), incoming[|incoming| - 1])
  }

  ghost predicate ValidDict(d: Dict) {
    && (forall i, j | 0 <= i < j < |d.order| :: d.order[i] != d.order[j])
    && (forall i | 0 <= i < |d.order| :: d.order[i] in d.items)
    && (forall id | id in d.items :: id in d.order)
  }

  ghost predicate KeyedById(d: Dict) {
    forall id | id in d.items :: Id(d.items[id]) == id
  }

  function Values(d: Dict): seq<Fields>
    requires ValidDict(d)
  {
    seq(|d.order|, i requires 0 <= i < |d.order| => d.items[d.order[i]])
  }

  ghost function Ids(items: seq<Fields>): seq<string> {
    seq(|items|, i requires 0 <= i < |items| => Id(items[i]))
  }

  predicate UniqueIds(items: seq<Fields>) {
    forall i, j | 0 <= i < j < |items| :: Id(items[i]) != Id(items[j])
  }

  predicate AllRobust(items: seq<Fields>) {
    forall i | 0 <= i < |items| :: Robust(items[i])
  }

  lemma SetItemValid(d: Dict, id: string, item: Fields)
    requires ValidDict(d)
    ensures ValidDict(SetItem(d, id, item)) && d.order <= SetItem(d, id, item).order
  {
    var r := SetItem(d, id, item);
    forall k | k in r.items
      ensures k in r.order
    {
      if k in d.items { assert k in d.order; } else { assert r.order[|d.order|] == k; }
    }
  }

  lemma {:induction false} IndexValid(existing: seq<Fields>)
    ensures ValidDict(Index(existing)) && KeyedById(Index(existing))
  {
    if existing != [] {
      var last := existing[|existing| - 1];
      IndexValid(existing[..|existing| - 1]);
      SetItemValid(Index(existing[..|existing| - 1]), Id(last), last);
    }
  }

  lemma {:induction false} AbsorbValid(d: Dict, incoming: seq<Fields>)
    requires ValidDict(d)
    ensures ValidDict(Absorb(d, incoming)) && d.order <= Absorb(d, incoming).order
    ensures KeyedById(d) && AllRobust(incoming) ==> KeyedById(Absorb(d, incoming))
  {
    if incoming != [] {
      var y := incoming[|incoming| - 1];
      var before := Absorb(d, incoming[..|incoming| - 1]);
      AbsorbValid(d, incoming[..|incoming| - 1]);
      SetItemValid(before, Id(y), if Id(y) in before.items then MergeItem(before.items[Id(y)], y) else y);
      if KeyedById(d) && AllRobust(incoming) {
        assert AllRobust(incoming[..|incoming| - 1]);
        assert Robust(y);
        if Id(y) in before.items { RobustKeepsId(before.items[Id(y)], y); }
        hide Id, Robust, MergeItem;
      }
    }
  }

  function MergeCredentials(existing: seq<Fields>, incoming: seq<Fields>): (r: seq<Fields>) {
    IndexValid(existing);
    AbsorbValid(Index(existing), incoming);
    Values(Absorb(Index(existing), incoming))
  }

  /** With unique ids, an absorbed item has nothing left to change. */
  lemma {:induction false} AbsorbedFixed(d: Dict, incoming: seq<Fields>, j: nat)
    requires UniqueIds(incoming) && j < |incoming|
    ensures var r, id := Absorb(d, incoming), Id(incoming[j]); id in r.items && MergeItem(r.items[id], incoming[j]) == r.items[id]
    decreases |incoming|
  {
    var last := |incoming| - 1;
    if j == last {
      var before := Absorb(d, incoming[..last]);
      MergeItemTwice(if Id(incoming[j]) in before.items then before.items[Id(incoming[j])] else map[], incoming[j]);
    } else {
      AbsorbedFixed(d, incoming[..last], j);
      assert Id(incoming[j]) != Id(incoming[last]);
    }
  }

  lemma {:induction false} AbsorbNothing(r: Dict, incoming: seq<Fields>)
    requires forall j | 0 <= j < |incoming| :: Id(incoming[j]) in r.items && MergeItem(r.items[Id(incoming[j])], incoming[j]) == r.items[Id(incoming[j])]
    ensures Absorb(r, incoming) == r
  {
    if incoming != [] {
      var rest := incoming[..|incoming| - 1];
      assert forall j | 0 <= j < |rest| :: rest[j] == incoming[j];
      AbsorbNothing(r, rest);
      var id := Id(incoming[|incoming| - 1]);
      assert r.items[id := r.items[id]] == r.items;
    }
  }

  lemma AbsorbTwice(d: Dict, incoming: seq<Fields>)
    requires UniqueIds(incoming)
    ensures Absorb(Absorb(d, incoming), incoming) == Absorb(d, incoming)
  {
    var r := Absorb(d, incoming);
    forall j | 0 <= j < |incoming|
      ensures Id(incoming[j]) in r.items && MergeItem(r.items[Id(incoming[j])], incoming[j]) == r.items[Id(incoming[j])]
    {
      AbsorbedFixed(d, incoming, j);
    }
    AbsorbNothing(r, incoming);
  }

  ghost predicate IndexedAs(d: Dict, items: seq<Fields>) {
    && |d.order| == |items|
    && (forall i | 0 <= i < |items| :: d.order[i] == Id(items[i]) && d.order[i] in d.items && d.items[d.order[i]] == items[i])
  }

  lemma NotYet(d: Dict, items: seq<Fields>, y: Fields)
    requires ValidDict(d) && IndexedAs(d, items) && forall i | 0 <= i < |items| :: Id(items[i]) != Id(y)
    ensures Id(y) !in d.items
    ensures IndexedAs(SetItem(d, Id(y), y), items + [y])
  {
    hide Id;
  }

  lemma UniquePrefix(items: seq<Fields>, last: nat)
    requires UniqueIds(items) && |items| == last + 1
    ensures UniqueIds(items[..last]) && items == items[..last] + [items[last]]
    ensures forall i | 0 <= i < last :: Id(items[..last][i]) != Id(items[last])
  {
    hide Id;
  }

  /** A list with unique ids is indexed as it stands. */
  lemma {:induction false} IndexUnique(items: seq<Fields>)
    requires UniqueIds(items)
    ensures ValidDict(Index(items)) && IndexedAs(Index(items), items) && Index(items) == Absorb(EMPTY, items)
  {
    IndexValid(items);
    if items != [] {
      var last := |items| - 1;
      UniquePrefix(items, last);
      hide Id, MergeItem, IndexedAs, ValidDict, SetItem, UniqueIds, KeyedById;
      IndexUnique(items[..last]);
      NotYet(Index(items[..last]), items[..last], items[last]);
    }
  }

  lemma ValuesOfUnique(items: seq<Fields>)
    requires UniqueIds(items)
    ensures ValidDict(Index(items)) && Values(Index(items)) == items
  {
    IndexUnique(items);
    hide Id, Index, MergeItem;
  }

  lemma SameDict(a: Dict, b: Dict)
    requires ValidDict(a) && ValidDict(b) && a.order == b.order
    requires forall i | 0 <= i < |a.order| :: a.items[a.order[i]] == b.items[a.order[i]]
    ensures a == b
  {
    assert forall id :: id in a.items <==> id in b.items;
    assert a.items == b.items;
  }

  /** Listing a dictionary keyed by id and indexing the list again gives it back. */
  lemma Reindex(d: Dict)
    requires ValidDict(d) && KeyedById(d)
    ensures Index(Values(d)) == d
  {
    hide Id, MergeItem, Index, Absorb;
    var v := Values(d);
    assert forall i | 0 <= i < |v| :: Id(v[i]) == d.order[i];
    IndexUnique(v);
    assert Index(v).order == d.order;
    SameDict(Index(v), d);
  }

  lemma CredentialsIdempotent(existing: seq<Fields>, incoming: seq<Fields>)
    requires UniqueIds(incoming) && AllRobust(incoming)
    ensures MergeCredentials(MergeCredentials(existing, incoming), incoming) == MergeCredentials(existing, incoming)
  {
    IndexValid(existing);
    AbsorbValid(Index(existing), incoming);
    Reindex(Absorb(Index(existing), incoming));
    AbsorbTwice(Index(existing), incoming);
  }

  lemma CredentialsSelfMerge(incoming: seq<Fields>)
    requires UniqueIds(incoming)
    ensures MergeCredentials(incoming, incoming) == incoming
  {
    IndexUnique(incoming);
    AbsorbTwice(EMPTY, incoming);
    ValuesOfUnique(incoming);
  }

  /** The ids of the merged list are those of the two lists one after the other, each at its first occurrence. */
  lemma {:induction false} AbsorbOrder(existing: seq<Fields>, incoming: seq<Fields>)
    ensures Absorb(Index(existing), incoming).order == Index(existing + incoming).order
    ensures Absorb(Index(existing), incoming).items.Keys == Index(existing + incoming).items.Keys
    decreases |incoming|
  {
    if incoming == [] {
      assert existing + incoming == existing;
    } else {
      var last, all := |incoming| - 1, existing + incoming;
      SnocBoth(existing, incoming, last);
      AbsorbOrder(existing, incoming[..last]);
      assert Index(all) == SetItem(Index(existing + incoming[..last]), Id(incoming[last]), incoming[last]);
      assert Absorb(Index(existing), incoming) == AbsorbOne(Absorb(Index(existing), incoming[..last]), incoming[last]);
      hide Id, MergeItem, Index, Absorb, AbsorbOne, SetItem;
      SameKeysGrow(Absorb(Index(existing), incoming[..last]), Index(existing + incoming[..last]), incoming[last]);
    }
  }

  lemma SnocBoth(a: seq<Fields>, b: seq<Fields>, last: nat)
    requires |b| == last + 1
    ensures |a + b| > 0 && (a + b)[..|a + b| - 1] == a + b[..last] && (a + b)[|a + b| - 1] == b[last]
  {
  }

  lemma SameKeysGrow(a: Dict, b: Dict, y: Fields)
    requires a.order == b.order && a.items.Keys == b.items.Keys
    ensures AbsorbOne(a, y).order == SetItem(b, Id(y), y).order && AbsorbOne(a, y).items.Keys == SetItem(b, Id(y), y).items.Keys
  {
    hide Id, MergeItem;
    assert Id(y) in a.items.Keys <==> Id(y) in b.items.Keys;
  }

  function DistinctIds(items: seq<Fields>): seq<string> {
    Index(items).order
  }

  lemma ValuesIds(d: Dict)
    requires ValidDict(d) && KeyedById(d)
    ensures Ids(Values(d)) == d.order
  {
    hide Id;
  }

  lemma CredentialIds(existing: seq<Fields>, incoming: seq<Fields>)
    requires AllRobust(incoming)
    ensures Ids(MergeCredentials(existing, incoming)) == DistinctIds(existing + incoming)
    ensures DistinctIds(existing) <= Ids(MergeCredentials(existing, incoming))
  {
    IndexValid(existing);
    AbsorbValid(Index(existing), incoming);
    ValuesIds(Absorb(Index(existing), incoming));
    AbsorbOrder(existing, incoming);
  }

  lemma {:induction false} EveryIdDistinct(items: seq<Fields>, i: nat)
    requires i < |items|
    ensures Id(items[i]) in DistinctIds(items)
  {
    hide Id;
    var last := |items| - 1;
    IndexValid(items);
    IndexValid(items[..last]);
    if i < last {
      EveryIdDistinct(items[..last], i);
      assert items[..last][i] == items[i];
    }
    hide KeyedById;
  }

  /** What a dictionary holds for an incoming item once a list with unique ids is absorbed. */
  lemma {:induction false} AbsorbedItem(d: Dict, incoming: seq<Fields>, j: nat)
    requires UniqueIds(incoming) && j < |incoming|
    ensures var r, id := Absorb(d, incoming), Id(incoming[j]);
            id in r.items && r.items[id] == if id in d.items then MergeItem(d.items[id], incoming[j]) else incoming[j]
    decreases |incoming|
  {
    hide Id, MergeItem;
    var last := |incoming| - 1;
    UniquePrefix(incoming, last);
    if j == last {
      AbsorbedElse(d, incoming[..last], Id(incoming[j]));
    } else {
      AbsorbedItem(d, incoming[..last], j);
    }
  }

  lemma {:induction false} AbsorbedElse(d: Dict, incoming: seq<Fields>, id: string)
    requires forall j | 0 <= j < |incoming| :: Id(incoming[j]) != id
    ensures var r := Absorb(d, incoming); (id in r.items <==> id in d.items) && (id in d.items ==> r.items[id] == d.items[id])
    decreases |incoming|
  {
    hide Id, MergeItem;
    if incoming != [] {
      var rest := incoming[..|incoming| - 1];
      assert forall j | 0 <= j < |rest| :: rest[j] == incoming[j];
      AbsorbedElse(d, rest, id);
    }
  }

  lemma UniqueSnoc(items: seq<Fields>, last: nat)
    requires |items| == last + 1 && UniqueIds(items[..last])
    requires forall i | 0 <= i < last :: Id(items[..last][i]) != Id(items[last])
    ensures UniqueIds(items)
  {
    hide Id;
    assert forall i | 0 <= i < last :: items[..last][i] == items[i];
  }

  lemma LastIsNew(items: seq<Fields>, last: nat, i: nat)
    requires |items| == last + 1 && Id(items[last]) !in Index(items[..last]).items && i < last
    ensures Id(items[..last][i]) != Id(items[last])
  {
    EveryIdDistinct(items[..last], i);
    IndexValid(items[..last]);
    hide Id, Index, KeyedById;
  }

  lemma {:induction false} IndexSize(items: seq<Fields>)
    ensures |Index(items).order| <= |items| && (|Index(items).order| == |items| ==> UniqueIds(items))
  {
    if items != [] {
      var last := |items| - 1;
      hide Id, UniqueIds;
      IndexSize(items[..last]);
      if |Index(items).order| == |items| {
        assert Id(items[last]) !in Index(items[..last]).items && |Index(items[..last]).order| == last;
        hide Index;
        forall i | 0 <= i < last ensures Id(items[..last][i]) != Id(items[last]) { LastIsNew(items, last, i); }
        UniqueSnoc(items, last);
      }
    }
  }

  lemma {:induction false} AbsorbKnown(d: Dict, incoming: seq<Fields>)
    requires forall j | 0 <= j < |incoming| :: Id(incoming[j]) in d.items
    ensures Absorb(d, incoming).order == d.order && Absorb(d, incoming).items.Keys == d.items.Keys
    decreases |incoming|
  {
    hide Id, MergeItem;
    if incoming != [] {
      var rest := incoming[..|incoming| - 1];
      assert forall j | 0 <= j < |rest| :: rest[j] == incoming[j];
      AbsorbKnown(d, rest);
      assert Id(incoming[|incoming| - 1]) in d.items;
    }
  }

  /** A list with a repeated id shrinks when it is merged with itself, or with a list of the same ids. */
  lemma SameIdsShrink(items: seq<Fields>, same: seq<Fields>)
    requires !UniqueIds(items) && |same| == |items| && forall j | 0 <= j < |items| :: Id(same[j]) == Id(items[j])
    ensures MergeCredentials(items, same) != items
  {
    IndexSize(items);
    IndexValid(items);
    forall j | 0 <= j < |same|
      ensures Id(same[j]) in Index(items).items
    {
      EveryIdDistinct(items, j);
      hide Id;
    }
    AbsorbKnown(Index(items), same);
    hide Id, Index, Absorb;
  }

  lemma DuplicatesShrink(items: seq<Fields>)
    requires !UniqueIds(items)
    ensures MergeCredentials(items, items) != items
  {
    SameIdsShrink(items, items);
  }

  /** A renamed credential no longer meets its incoming item, which is then added once more. */
  lemma RenamedDuplicates(x: Fields, incoming: seq<Fields>, j: nat)
    requires UniqueIds(incoming) && j < |incoming| && Id(x) == Id(incoming[j]) && Id(MergeItem(x, incoming[j])) != Id(x)
    ensures var r := MergeCredentials([x], incoming); MergeCredentials(r, incoming) != r
  {
    var id := Id(x);
    IndexValid([x]);
    assert Index([x]) == Dict([id], map[id := x]) by { assert [x][..0] == []; }
    AbsorbValid(Index([x]), incoming);
    var d := Absorb(Index([x]), incoming);
    var r := Values(d);
    forall i | 0 <= i < |r|
      ensures Id(r[i]) != id
    {
      AbsorbedItem(Index([x]), incoming, j);
      if d.order[i] != id { NewItem(x, incoming, d.order[i]); }
      hide Id, MergeItem, Absorb;
    }
    hide Id, MergeItem;
    NotIndexed(r, id);
    IndexValid(r);
    AbsorbValid(Index(r), incoming);
    AbsorbedItem(Index(r), incoming, j);
    var again := Absorb(Index(r), incoming);
    hide Absorb, Index;
    assert id in again.order;
    var i :| 0 <= i < |again.order| && again.order[i] == id;
    assert Values(again)[i] == incoming[j];
  }

  lemma NewItem(x: Fields, incoming: seq<Fields>, id: string)
    requires UniqueIds(incoming) && Index([x]) == Dict([Id(x)], map[Id(x) := x]) && id != Id(x) && id in Absorb(Index([x]), incoming).items
    ensures Id(Absorb(Index([x]), incoming).items[id]) == id
  {
    hide Id, MergeItem, Absorb;
    if j :| 0 <= j < |incoming| && Id(incoming[j]) == id {
      AbsorbedItem(Index([x]), incoming, j);
    } else {
      AbsorbedElse(Index([x]), incoming, id);
    }
  }

  lemma {:induction false} NotIndexed(items: seq<Fields>, id: string)
    requires forall i | 0 <= i < |items| :: Id(items[i]) != id
    ensures id !in Index(items).items
  {
    hide Id;
    if items != [] {
      var rest := items[..|items| - 1];
      assert forall i | 0 <= i < |rest| :: rest[i] == items[i];
      NotIndexed(rest, id);
    }
  }

  // ---------------------------------------------------------------------------------------
  // Which ids a merge keeps
  // ---------------------------------------------------------------------------------------

  /** The text under a key once every incoming item of the id is merged: the latest that has the key decides. */
  function LatestText(x: Fields, incoming: seq<Fields>, id: string, key: string): string {
    if incoming == [] then Text(x, key)
    else
      var y := incoming[|incoming| - 1];
      if Id(y) == id && key in y then Text(y, key) else LatestText(x, incoming[..|incoming| - 1], id, key)
  }

  /** The id that a credential spells once every incoming item with the key `slot` is merged into it. */
  function Spelled(x: Fields, incoming: seq<Fields>, slot: string): string {
    LatestText(x, incoming, slot, "provider") + ":" + LatestText(x, incoming, slot, "name")
  }

  /** The stored credential still has its id afterwards. */
  predicate IdKept(x: Fields, incoming: seq<Fields>) {
    Spelled(x, incoming, Id(x)) == Id(x)
  }

  predicate IdsKept(existing: seq<Fields>, incoming: seq<Fields>) {
    var d := Index(existing);
    forall id | id in d.items :: IdKept(d.items[id], incoming)
  }

  lemma {:induction false} AbsorbedText(d: Dict, incoming: seq<Fields>, id: string, key: string)
    requires id in d.items && !SecretKey(key)
    ensures id in Absorb(d, incoming).items && Text(Absorb(d, incoming).items[id], key) == LatestText(d.items[id], incoming, id, key)
    decreases |incoming|
  {
    if incoming != [] {
      var rest, y := incoming[..|incoming| - 1], incoming[|incoming| - 1];
      AbsorbedText(d, rest, id, key);
      if Id(y) == id { MergedText(Absorb(d, rest).items[id], y, key); }
      hide Id, MergeItem, Text;
    }
  }

  lemma AbsorbedId(d: Dict, incoming: seq<Fields>, id: string)
    requires id in d.items && Id(d.items[id]) == id
    ensures id in Absorb(d, incoming).items && (Id(Absorb(d, incoming).items[id]) == id <==> IdKept(d.items[id], incoming))
  {
    AbsorbedText(d, incoming, id, "provider");
    AbsorbedText(d, incoming, id, "name");
    hide Absorb, LatestText, Text;
  }

  /** The merged list starts with the stored ids in their order if and only if every stored credential keeps its id. */
  lemma IdsKeptIff(existing: seq<Fields>, incoming: seq<Fields>)
    ensures DistinctIds(existing) <= Ids(MergeCredentials(existing, incoming)) <==> IdsKept(existing, incoming)
  {
    IndexValid(existing);
    AbsorbValid(Index(existing), incoming);
    var d, after := Index(existing), Absorb(Index(existing), incoming);
    var ids := Ids(Values(after));
    assert ids == Ids(MergeCredentials(existing, incoming));
    hide Id, IdKept, Absorb, Index, MergeCredentials;
    forall i | 0 <= i < |d.order|
      ensures i < |ids| && (ids[i] == d.order[i] <==> IdKept(d.items[d.order[i]], incoming))
    {
      AbsorbedId(d, incoming, d.order[i]);
      assert after.order[i] == d.order[i];
    }
    PrefixIff(d.order, ids);
    assert IdsKept(existing, incoming) <==> forall i | 0 <= i < |d.order| :: IdKept(d.items[d.order[i]], incoming);
  }

  lemma PrefixIff(a: seq<string>, b: seq<string>)
    requires |a| <= |b|
    ensures a <= b <==> forall i | 0 <= i < |a| :: b[i] == a[i]
  {
  }

  lemma {:induction false} LatestTextUnmatched(x: Fields, incoming: seq<Fields>, key: string)
    requires forall j | 0 <= j < |incoming| && Id(incoming[j]) == Id(x) :: incoming[j] == x
    ensures LatestText(x, incoming, Id(x), key) == Text(x, key)
  {
    hide Id;
    if incoming != [] { LatestTextUnmatched(x, incoming[..|incoming| - 1], key); }
  }

  /** A credential that no other incoming item matches keeps its id. */
  lemma OnlyItself(x: Fields, incoming: seq<Fields>)
    requires forall j | 0 <= j < |incoming| && Id(incoming[j]) == Id(x) :: incoming[j] == x
    ensures IdKept(x, incoming)
  {
    LatestTextUnmatched(x, incoming, "provider");
    LatestTextUnmatched(x, incoming, "name");
  }

  lemma {:induction false} LatestTextMatched(x: Fields, incoming: seq<Fields>, j: nat, key: string)
    requires UniqueIds(incoming) && j < |incoming| && Id(incoming[j]) == Id(x)
    ensures LatestText(x, incoming, Id(x), key) == if key in incoming[j] then Text(incoming[j], key) else Text(x, key)
  {
    hide Id;
    var last := |incoming| - 1;
    UniquePrefix(incoming, last);
    if j < last {
      LatestTextMatched(x, incoming[..last], j, key);
    } else {
      LatestTextUnmatched(x, incoming[..last], key);
    }
  }

  /** With unique incoming ids the condition is pairwise: what the incoming item leaves out must be blank in the stored
      one. */
  lemma IdKeptPairwise(x: Fields, incoming: seq<Fields>, j: nat)
    requires UniqueIds(incoming) && j < |incoming| && Id(incoming[j]) == Id(x)
    ensures var y := incoming[j];
            IdKept(x, incoming) <==> ("provider" in y || Text(x, "provider") == "") && ("name" in y || Text(x, "name") == "")
  {
    LatestTextMatched(x, incoming, j, "provider");
    LatestTextMatched(x, incoming, j, "name");
    hide LatestText;
    PairKeeps(x, incoming[j]);
  }

  lemma PairKeeps(x: Fields, y: Fields)
    requires Id(y) == Id(x)
    ensures var provider := if "provider" in y then Text(y, "provider") else Text(x, "provider");
            var name := if "name" in y then Text(y, "name") else Text(x, "name");
            provider + ":" + name == Id(x) <==> ("provider" in y || Text(x, "provider") == "") && ("name" in y || Text(x, "name") == "")
  {
    var provider := if "provider" in y then Text(y, "provider") else Text(x, "provider");
    var name := if "name" in y then Text(y, "name") else Text(x, "name");
    if "provider" !in y {
      assert |Id(y)| == 1 + |Text(y, "name")|;
      assert |provider + ":" + name| == |Text(x, "provider")| + 1 + |name|;
    }
    if "name" !in y {
      assert |Id(y)| == |Text(y, "provider")| + 1;
      assert |provider + ":" + name| == |provider| + 1 + |Text(x, "name")|;
    }
  }

  lemma RobustKeepsIds(existing: seq<Fields>, incoming: seq<Fields>)
    requires AllRobust(incoming)
    ensures IdsKept(existing, incoming)
  {
    CredentialIds(existing, incoming);
    IdsKeptIff(existing, incoming);
  }

  /** For a list with unique ids and an item that is not robust there is a stored credential that loses its id. */
  lemma FragileLoses(incoming: seq<Fields>, j: nat) returns (x: Fields)
    requires UniqueIds(incoming) && j < |incoming| && !Robust(incoming[j])
    ensures !IdsKept([x], incoming)
  {
    x := FragileRenames(incoming[j]);
    MergedId(x, incoming[j]);
    IdKeptPairwise(x, incoming, j);
    PairKeeps(x, incoming[j]);
    assert Index([x]) == Dict([Id(x)], map[Id(x) := x]) by { assert [x][..0] == []; }
    hide Id, Robust, MergeItem, Text, IdKept;
    assert Index([x]).items[Id(x)] == x;
  }

  function StoredAt(d: Dict, slot: string): Fields {
    if slot in d.items then d.items[slot] else map[]
  }

  /** The ids that the slots of both lists spell, in order. */
  function SpelledIds(existing: seq<Fields>, incoming: seq<Fields>): seq<string> {
    var slots := DistinctIds(existing + incoming);
    seq(|slots|, i requires 0 <= i < |slots| => Spelled(StoredAt(Index(existing), slots[i]), incoming, slots[i]))
  }

  /** A new slot starts from nothing: its first item is only the first to be merged. */
  lemma {:induction false} SlotText(d: Dict, incoming: seq<Fields>, slot: string, key: string)
    requires !SecretKey(key)
    ensures if slot in Absorb(d, incoming).items then Text(Absorb(d, incoming).items[slot], key) == LatestText(StoredAt(d, slot), incoming, slot, key)
            else LatestText(StoredAt(d, slot), incoming, slot, key) == Text(map[], key)
    decreases |incoming|
  {
    if incoming != [] {
      var rest, y := incoming[..|incoming| - 1], incoming[|incoming| - 1];
      SlotText(d, rest, slot, key);
      assert key !in y ==> Text(y, key) == Text(map[], key);
      if Id(y) == slot && slot in Absorb(d, rest).items { MergedText(Absorb(d, rest).items[slot], y, key); }
      hide Id, MergeItem, Text;
    }
  }

  lemma MergedIs(existing: seq<Fields>, incoming: seq<Fields>)
    ensures var after := Absorb(Index(existing), incoming);
            ValidDict(after) && MergeCredentials(existing, incoming) == Values(after) && after.order == DistinctIds(existing + incoming)
  {
    IndexValid(existing);
    AbsorbValid(Index(existing), incoming);
    AbsorbOrder(existing, incoming);
    hide Id, Absorb, ValidDict, KeyedById, Values;
  }

  /** The merged list has exactly the ids that the slots of both lists spell, in their order. */
  lemma MergedIds(existing: seq<Fields>, incoming: seq<Fields>)
    ensures Ids(MergeCredentials(existing, incoming)) == SpelledIds(existing, incoming)
  {
    var d, after := Index(existing), Absorb(Index(existing), incoming);
    MergedIs(existing, incoming);
    hide MergeCredentials, DistinctIds;
    forall i | 0 <= i < |after.order|
      ensures Id(after.items[after.order[i]]) == Spelled(StoredAt(d, after.order[i]), incoming, after.order[i])
    {
      SlotText(d, incoming, after.order[i], "provider");
      SlotText(d, incoming, after.order[i], "name");
      hide Absorb, Index, LatestText, Text, StoredAt;
    }
    hide Id, Absorb, Index, MergeCredentials, Spelled, DistinctIds, StoredAt;
  }

  /** A stored credential that keeps its id is one of them. */
  lemma KeptIsSpelled(existing: seq<Fields>, incoming: seq<Fields>, id: string)
    requires id in Index(existing).items && IdKept(Index(existing).items[id], incoming)
    ensures id in SpelledIds(existing, incoming)
  {
    IndexValid(existing);
    AbsorbValid(Index(existing), incoming);
    AbsorbOrder(existing, incoming);
    var d, slots := Index(existing), DistinctIds(existing + incoming);
    assert d.order <= slots;
    hide Id, Absorb, Index, Spelled, DistinctIds;
    var k :| 0 <= k < |d.order| && d.order[k] == id;
    assert slots[k] == id && SpelledIds(existing, incoming)[k] == id;
  }

  // ---------------------------------------------------------------------------------------
  // What a merge writes
  // ---------------------------------------------------------------------------------------

  /** The part starts somewhere in the text. */
  ghost predicate Within(s: string, part: string) {
    exists i | 0 <= i <= |s| :: part <= s[i..]
  }

  lemma {:induction false} ContainsIff(s: string, part: string)
    ensures Contains(s, part) <==> Within(s, part)
  {
    assert s[0..] == s;
    if s != "" {
      ContainsIff(s[1..], part);
      assert forall i | 0 <= i <= |s[1..]| :: s[1..][i..] == s[i + 1..];
      if Within(s, part) {
        var i :| 0 <= i <= |s| && part <= s[i..];
        if i > 0 { assert part <= s[1..][i - 1..]; }
      }
    }
  }

  /** The four-dots-four form of a stored text. */
  ghost predicate ShortFormOf(text: string, stored: Option<Json>) {
    && stored.Some? && stored.value.Str? && |stored.value.s| >= 8
    && text == stored.value.s[..4] + "..." + stored.value.s[|stored.value.s| - 4..]
  }

  lemma {:induction false} ContainsMiddle(a: string, part: string, b: string)
    ensures Contains(a + part + b, part)
    decreases |a|
  {
    var whole := a + part + b;
    if a == "" {
      assert whole == part + b;
    } else {
      assert whole[1..] == a[1..] + part + b;
      ContainsMiddle(a[1..], part, b);
    }
  }

  lemma MaskOfIff(v: Json, stored: Option<Json>)
    requires v.Str?
    ensures MaskOf(v, stored) ==> ShortFormOf(v.s, stored) || Some(v) == stored
    ensures ShortFormOf(v.s, stored) ==> MaskOf(v, stored)
  {
    if ShortFormOf(v.s, stored) { ContainsMiddle(stored.value.s[..4], "...", stored.value.s[|stored.value.s| - 4..]); }
    hide Contains;
  }

  /** An incoming field is written, except a secret that is starred or the short form of the stored one. */
  ghost predicate WrittenOver(key: string, stored: Option<Json>, came: Option<Json>, after: Option<Json>) {
    if came.None? then after == stored
    else if (key == "key" || key == "value" || key == "mnemonic") && came.value.Str?
         && (Within(came.value.s, "****") || ShortFormOf(came.value.s, stored)) then after == stored
    else after == came
  }

  lemma ItemWritten(x: Fields, y: Fields, key: string)
    ensures WrittenOver(key, Field(x, key), Field(y, key), Field(MergeItem(x, y), key))
  {
    MergeItemField(x, y, key);
    if key in y && y[key].Str? {
      ContainsIff(y[key].s, "****");
      MaskOfIff(y[key], Field(x, key));
    }
    hide MergeItem, Contains, MaskOf, Within, ShortFormOf;
  }

  /** The last stored credential of an id. */
  ghost predicate IsLast(existing: seq<Fields>, i: nat, id: string) {
    i < |existing| && Id(existing[i]) == id && forall j | i < j < |existing| :: Id(existing[j]) != id
  }

  lemma {:induction false} IndexLast(existing: seq<Fields>, i: nat, id: string)
    requires IsLast(existing, i, id)
    ensures id in Index(existing).items && Index(existing).items[id] == existing[i]
  {
    hide Id;
    var last := |existing| - 1;
    if i < last {
      assert existing[..last][i] == existing[i] && Id(existing[last]) != id;
      assert forall j | i < j < last :: existing[..last][j] == existing[j];
      IndexLast(existing[..last], i, id);
    }
  }

  /** Where the credential of an id ends up: in the slot of the id, and at its own place when the stored ids are unique. */
  ghost predicate InSlot(existing: seq<Fields>, incoming: seq<Fields>, k: nat, id: string) {
    && k < |DistinctIds(existing + incoming)| == |MergeCredentials(existing, incoming)|
    && DistinctIds(existing + incoming)[k] == id
    && (UniqueIds(existing) ==> forall i | 0 <= i < |existing| && Id(existing[i]) == id :: i == k)
  }

  lemma OwnPlace(existing: seq<Fields>, incoming: seq<Fields>, i: nat)
    requires UniqueIds(existing) && i < |existing|
    ensures i < |Absorb(Index(existing), incoming).order| && Absorb(Index(existing), incoming).order[i] == Id(existing[i])
  {
    IndexValid(existing);
    AbsorbValid(Index(existing), incoming);
    IndexUnique(existing);
    hide Id, Absorb, Index, ValidDict, KeyedById;
  }

  lemma Position(d: Dict, id: string) returns (k: nat)
    requires ValidDict(d) && id in d.items
    ensures k < |d.order| && d.order[k] == id && Values(d)[k] == d.items[id] && forall i | 0 <= i < |d.order| && d.order[i] == id :: i == k
  {
    assert id in d.order;
    k :| 0 <= k < |d.order| && d.order[k] == id;
  }

  lemma SlotOf(existing: seq<Fields>, incoming: seq<Fields>, id: string) returns (k: nat)
    requires id in Absorb(Index(existing), incoming).items
    ensures InSlot(existing, incoming, k, id) && MergeCredentials(existing, incoming)[k] == Absorb(Index(existing), incoming).items[id]
  {
    MergedIs(existing, incoming);
    hide Id, Absorb, Index, MergeCredentials, DistinctIds, ValidDict, UniqueIds;
    k := Position(Absorb(Index(existing), incoming), id);
    if UniqueIds(existing) {
      forall i | 0 <= i < |existing| && Id(existing[i]) == id ensures i == k { OwnPlace(existing, incoming, i); }
    }
  }

  /** A stored credential that one incoming item matches: every field of the item is written over it. */
  lemma MatchedItem(existing: seq<Fields>, incoming: seq<Fields>, i: nat, j: nat) returns (k: nat)
    requires UniqueIds(incoming) && j < |incoming| && IsLast(existing, i, Id(incoming[j]))
    ensures InSlot(existing, incoming, k, Id(incoming[j]))
    ensures forall key :: WrittenOver(key, Field(existing[i], key), Field(incoming[j], key), Field(MergeCredentials(existing, incoming)[k], key))
  {
    IndexLast(existing, i, Id(incoming[j]));
    AbsorbedItem(Index(existing), incoming, j);
    hide Id, MergeItem, Index, Absorb, MergeCredentials, IsLast, UniqueIds, WrittenOver;
    k := SlotOf(existing, incoming, Id(incoming[j]));
    forall key
      ensures WrittenOver(key, Field(existing[i], key), Field(incoming[j], key), Field(MergeCredentials(existing, incoming)[k], key))
    {
      ItemWritten(existing[i], incoming[j], key);
    }
  }

  /** An incoming item that no stored credential matches is stored as it is. */
  lemma NewCredential(existing: seq<Fields>, incoming: seq<Fields>, j: nat) returns (k: nat)
    requires UniqueIds(incoming) && j < |incoming| && forall i | 0 <= i < |existing| :: Id(existing[i]) != Id(incoming[j])
    ensures InSlot(existing, incoming, k, Id(incoming[j])) && MergeCredentials(existing, incoming)[k] == incoming[j]
  {
    NotIndexed(existing, Id(incoming[j]));
    AbsorbedItem(Index(existing), incoming, j);
    hide Id, MergeItem, Index, Absorb, MergeCredentials, UniqueIds;
    k := SlotOf(existing, incoming, Id(incoming[j]));
  }

  /** A stored credential that no incoming item matches stays as it is. */
  lemma UnmatchedCredential(existing: seq<Fields>, incoming: seq<Fields>, i: nat) returns (k: nat)
    requires i < |existing| && IsLast(existing, i, Id(existing[i])) && forall j | 0 <= j < |incoming| :: Id(incoming[j]) != Id(existing[i])
    ensures InSlot(existing, incoming, k, Id(existing[i])) && MergeCredentials(existing, incoming)[k] == existing[i]
  {
    IndexLast(existing, i, Id(existing[i]));
    AbsorbedElse(Index(existing), incoming, Id(existing[i]));
    hide Id, MergeItem, Index, Absorb, MergeCredentials, UniqueIds, IsLast;
    k := SlotOf(existing, incoming, Id(existing[i]));
  }

  /** With unique ids on both sides, every stored credential keeps its place, with the fields of the incoming item of its id
      written over it. */
  ghost predicate WrittenInPlace(existing: seq<Fields>, incoming: seq<Fields>, r: seq<Fields>) {
    && |existing| <= |r|
    && (forall i, j, key | 0 <= i < |existing| && 0 <= j < |incoming| && Id(existing[i]) == Id(incoming[j]) ::
          WrittenOver(key, Field(existing[i], key), Field(incoming[j], key), Field(r[i], key)))
    && (forall i | 0 <= i < |existing| && (forall j | 0 <= j < |incoming| :: Id(incoming[j]) != Id(existing[i])) :: r[i] == existing[i])
  }

  lemma MergedInPlace(existing: seq<Fields>, incoming: seq<Fields>)
    requires UniqueIds(existing) && UniqueIds(incoming)
    ensures WrittenInPlace(existing, incoming, MergeCredentials(existing, incoming))
  {
    IndexUnique(existing);
    IndexValid(existing);
    AbsorbValid(Index(existing), incoming);
    var r := MergeCredentials(existing, incoming);
    assert |existing| <= |r|;
    hide Id, MergeItem, Index, Absorb, MergeCredentials, WrittenOver;
    assert forall i | 0 <= i < |existing| :: IsLast(existing, i, Id(existing[i]));
    hide IsLast, UniqueIds;
    forall i, j, key | 0 <= i < |existing| && 0 <= j < |incoming| && Id(existing[i]) == Id(incoming[j])
      ensures WrittenOver(key, Field(existing[i], key), Field(incoming[j], key), Field(r[i], key))
    {
      var k := MatchedItem(existing, incoming, i, j);
    }
    forall i | 0 <= i < |existing| && forall j | 0 <= j < |incoming| :: Id(incoming[j]) != Id(existing[i])
      ensures r[i] == existing[i]
    {
      var k := UnmatchedCredential(existing, incoming, i);
    }
  }

  // ---------------------------------------------------------------------------------------
  // The program
  // ---------------------------------------------------------------------------------------

  /** The inner loop: the fields of one incoming item are written over a stored credential. */
  method MergeIntoItem(x: Fields, y: Fields) returns (r: Fields)
    ensures r == MergeItem(x, y) && forall key :: WrittenOver(key, Field(x, key), Field(y, key), Field(r, key))
  {
    r := x;
    var keys := y.Keys;
    while keys != {}
      invariant keys <= y.Keys
      invariant forall key :: Field(r, key) == if key in keys then Field(x, key) else ItemField(x, y, key)
      decreases |keys|
    {
      hide MergeItem, Contains;
      var key :| key in keys;
      var v := y[key];
      var skip := false;
      if SecretKey(key) && v.Str? {
        if Contains(v.s, "****") {
          skip := true;
        } else if MaskOf(v, Field(r, key)) {
          skip := true;
        }
      }
      ghost var before := r;
      if !skip {
        r := r[key := v];
      }
      assert forall k | k != key :: Field(r, k) == Field(before, k);
      assert Field(r, key) == ItemField(x, y, key);
      keys := keys - {key};
    }
    forall key
      ensures Field(r, key) == Field(MergeItem(x, y), key)
    {
      MergeItemField(x, y, key);
    }
    SameFields(r, MergeItem(x, y));
    forall key ensures WrittenOver(key, Field(x, key), Field(y, key), Field(r, key)) { ItemWritten(x, y, key); }
  }

  method MergeCredentialLists(existing: seq<Fields>, incoming: seq<Fields>) returns (r: seq<Fields>)
    ensures r == MergeCredentials(existing, incoming)
    ensures UniqueIds(existing) && UniqueIds(incoming) ==> WrittenInPlace(existing, incoming, r)
  {
    hide MergeItem, Id;
    var d := EMPTY;
    for i := 0 to |existing|
      invariant d == Index(existing[..i])
    {
      d := SetItem(d, Id(existing[i]), existing[i]);
      assert existing[..i + 1][..i] == existing[..i];
    }
    assert existing[..|existing|] == existing;
    for j := 0 to |incoming|
      invariant d == Absorb(Index(existing), incoming[..j])
    {
      var y := incoming[j];
      var id := Id(y);
      if id in d.items {
        var merged := MergeIntoItem(d.items[id], y);
        d := SetItem(d, id, merged);
      } else {
        d := SetItem(d, id, y);
      }
      assert incoming[..j + 1][..j] == incoming[..j];
    }
    assert incoming[..|incoming|] == incoming;
    IndexValid(existing);
    AbsorbValid(Index(existing), incoming);
    r := Values(d);
    hide WrittenInPlace, UniqueIds;
    if UniqueIds(existing) && UniqueIds(incoming) { MergedInPlace(existing, incoming); }
  }
}
