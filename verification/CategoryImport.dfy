/**
 * Category sync in the core service: facets grouped by type are upserted as categories below their
 * type's root and linked to the city. Categories are keyed by their unique slug, city categories by
 * city and category; generated ids are numbers that are never used twice.
 */
module CategoryImport {
  import opened Common
  import DestinationOne
  import Grouping
  import Slugs

  type Facet = DestinationOne.Facet

  type CategoryType = DestinationOne.CategoryType

  datatype Category = Category(id: nat, name: string, categoryType: Option<CategoryType>, parentId: Option<nat>,
      isActive: bool)

  datatype CityCategory = CityCategory(displayName: Option<string>, displayOrder: int, isActive: bool)

  datatype Tables = Tables(categories: map<string, Category>, cityCategories: map<(string, nat), CityCategory>,
      nextId: nat)

  /** The core service's own copy of the table of roots. */
  function RootCategoryInfo(kind: string): Option<DestinationOne.RootCategory> {
    if kind == "Gastro" then Some(DestinationOne.RootCategory("food-and-drink", DestinationOne.GASTRO))
    else if kind == "Event" then Some(DestinationOne.RootCategory("events", DestinationOne.EVENT))
    else if kind == "Tour" then Some(DestinationOne.RootCategory("tours", DestinationOne.TOUR))
    else if kind == "POI" then Some(DestinationOne.RootCategory("points-of-interest", DestinationOne.POI))
    else if kind == "Hotel" then Some(DestinationOne.RootCategory("hotels-and-stays", DestinationOne.HOTEL))
    else if kind == "Article" then Some(DestinationOne.RootCategory("articles-and-stories", DestinationOne.ARTICLE))
    else None
  }

  lemma {:induction false} TablesAgree(kind: string)
    ensures RootCategoryInfo(kind) == DestinationOne.RootCategoryOf(kind)
    ensures RootCategoryInfo("Gastro") == Some(DestinationOne.RootCategory("food-and-drink", DestinationOne.GASTRO))
    ensures RootCategoryInfo("Event") == Some(DestinationOne.RootCategory("events", DestinationOne.EVENT))
    ensures RootCategoryInfo("Tour") == Some(DestinationOne.RootCategory("tours", DestinationOne.TOUR))
    ensures RootCategoryInfo("POI") == Some(DestinationOne.RootCategory("points-of-interest", DestinationOne.POI))
    ensures RootCategoryInfo("Hotel") == Some(DestinationOne.RootCategory("hotels-and-stays", DestinationOne.HOTEL))
    ensures RootCategoryInfo("Article")
         == Some(DestinationOne.RootCategory("articles-and-stories", DestinationOne.ARTICLE))
    ensures RootCategoryInfo(kind).Some? ==> kind in {"Gastro", "Event", "Tour", "POI", "Hotel", "Article"}
  {
  }

  /** Two types with different roots have roots with different first letters. */
  lemma {:induction false} RootInitials(k1: string, k2: string)
    requires RootCategoryInfo(k1).Some? && RootCategoryInfo(k2).Some?
    ensures RootCategoryInfo(k1).value.slug != "" && RootCategoryInfo(k2).value.slug != ""
    ensures k1 != k2 ==> RootCategoryInfo(k1).value.slug[0] != RootCategoryInfo(k2).value.slug[0]
  {
  }

  // ---- What a sync writes -----------------------------------------------------------------------------

  datatype Write = Write(slug: string, name: string, categoryType: CategoryType, parentId: nat)

  /** The upsert a facet asks for: none for another field, an unknown type or a root that is not seeded. */
  function WriteOf(fold: char -> string, categories: map<string, Category>, f: Facet): seq<Write> {
    var root := RootCategoryInfo(f.kind);
    if f.field != "category" || root.None? || root.value.slug !in categories then []
    else [Write(root.value.slug + "-" + Slugs.Slugify(fold, f.name), f.name, root.value.categoryType,
        categories[root.value.slug].id)]
  }

  function WritesOf(fold: char -> string, categories: map<string, Category>, facets: seq<Facet>): seq<Write> {
    if facets == [] then []
    else WritesOf(fold, categories, facets[..|facets| - 1]) + WriteOf(fold, categories, facets[|facets| - 1])
  }

  type Groups = seq<Grouping.Group<string, Facet>>

  function GroupWrites(fold: char -> string, categories: map<string, Category>, groups: Groups): seq<Write> {
    if groups == [] then []
    else GroupWrites(fold, categories, groups[..|groups| - 1]) + WritesOf(fold, categories, groups[|groups| - 1].items)
  }

  function CategoryRow(id: nat, w: Write): Category {
    Category(id, w.name, Some(w.categoryType), Some(w.parentId), true)
  }

  function IdFor(t: Tables, slug: string): nat {
    if slug in t.categories then t.categories[slug].id else t.nextId
  }

  /** Upsert the category, then its link to the city. */
  function ApplyOne(t: Tables, cityId: string, w: Write): Tables {
    var id := IdFor(t, w.slug);
    var key := (cityId, id);
    Tables(t.categories[w.slug := CategoryRow(id, w)],
           t.cityCategories[key := CityCategory(Some(w.name), DisplayOrder(t, key), true)],
           if w.slug in t.categories then t.nextId else t.nextId + 1)
  }

  function Apply(t: Tables, cityId: string, ws: seq<Write>): Tables {
    if ws == [] then t else ApplyOne(Apply(t, cityId, ws[..|ws| - 1]), cityId, ws[|ws| - 1])
  }

  ghost predicate Writes(ws: seq<Write>, slug: string) {
    exists i :: 0 <= i < |ws| && ws[i].slug == slug
  }

  ghost function LastWrite(ws: seq<Write>, slug: string): Write
    requires Writes(ws, slug)
  {
    if ws[|ws| - 1].slug == slug then ws[|ws| - 1] else WritesFront(ws, slug); LastWrite(ws[..|ws| - 1], slug)
  }

  lemma {:induction false} WritesFront(ws: seq<Write>, slug: string)
    requires ws != []
    ensures Writes(ws, slug) <==> Writes(ws[..|ws| - 1], slug) || ws[|ws| - 1].slug == slug
  {
  }

  // ---- What every sync keeps --------------------------------------------------------------------------

  /** Ids are unique and already issued, also those the city rows refer to. */
  ghost predicate WellFormed(t: Tables) {
    && (forall s :: s in t.categories ==> t.categories[s].id < t.nextId)
    && (forall s1, s2 | s1 in t.categories && s2 in t.categories
          && t.categories[s1].id == t.categories[s2].id :: s1 == s2)
    && forall k :: k in t.cityCategories ==> k.1 < t.nextId
  }

  /** A sync adds exactly the written slugs, keeps every id, and leaves all other rows alone. */
  lemma {:induction false} ApplyAddsWritten(t: Tables, cityId: string, ws: seq<Write>)
    requires WellFormed(t)
    ensures var t' := Apply(t, cityId, ws);
            && WellFormed(t') && t.nextId <= t'.nextId
            && (forall s :: s in t'.categories <==> s in t.categories || Writes(ws, s))
            && (forall s :: s in t.categories ==> t'.categories[s].id == t.categories[s].id)
            && (forall s :: s in t.categories && !Writes(ws, s) ==> t'.categories[s] == t.categories[s])
  {
    if ws != [] {
      ApplyAddsWritten(t, cityId, ws[..|ws| - 1]);
      forall s
        ensures Writes(ws, s) <==> Writes(ws[..|ws| - 1], s) || ws[|ws| - 1].slug == s
      {
        WritesFront(ws, s);
      }
    }
  }

  /** The slug's row is the one `w` writes, and the city shows the category under the same label. */
  ghost predicate Shows(t: Tables, t': Tables, cityId: string, slug: string, w: Write) {
    slug in t'.categories && t'.categories[slug] == CategoryRow(t'.categories[slug].id, w) &&
    var key := (cityId, t'.categories[slug].id);
    key in t'.cityCategories && t'.cityCategories[key] == CityCategory(Some(w.name), DisplayOrder(t, key), true)
  }

  function DisplayOrder(t: Tables, key: (string, nat)): int {
    if key in t.cityCategories then t.cityCategories[key].displayOrder else 0
  }

  /** The last write of a slug decides its row; the city row carries that label and keeps its order. */
  lemma {:induction false} LastWriteWins(t: Tables, cityId: string, ws: seq<Write>, slug: string)
    requires WellFormed(t) && Writes(ws, slug)
    ensures Shows(t, Apply(t, cityId, ws), cityId, slug, LastWrite(ws, slug))
  {
    var front, last := ws[..|ws| - 1], ws[|ws| - 1];
    WritesFront(ws, slug);
    ApplyAddsWritten(t, cityId, front);
    if last.slug != slug {
      LastWriteWins(t, cityId, front, slug);
    } else {
      CityRowsKept(t, cityId, front, (cityId, IdFor(Apply(t, cityId, front), slug)));
    }
  }

  /** The key is the city's link to a category that was written. */
  ghost predicate LinksWritten(t': Tables, cityId: string, ws: seq<Write>, key: (string, nat)) {
    key.0 == cityId && exists s :: s in t'.categories && Writes(ws, s) && t'.categories[s].id == key.1
  }

  ghost predicate SameRow(t: Tables, t': Tables, key: (string, nat)) {
    if key in t.cityCategories
    then key in t'.cityCategories && t'.cityCategories[key] == t.cityCategories[key]
    else key !in t'.cityCategories
  }

  /** City rows only ever gain: what existed keeps its order, and a row that is new or changed links a written slug. */
  lemma {:induction false} CityRowsKept(t: Tables, cityId: string, ws: seq<Write>, key: (string, nat))
    requires WellFormed(t)
    ensures var t' := Apply(t, cityId, ws);
            && DisplayOrder(t', key) == DisplayOrder(t, key) && (key in t.cityCategories ==> key in t'.cityCategories)
            && (LinksWritten(t', cityId, ws, key) || SameRow(t, t', key))
  {
    if ws != [] {
      var front, last := ws[..|ws| - 1], ws[|ws| - 1];
      var t0, t' := Apply(t, cityId, front), Apply(t, cityId, ws);
      ApplyAddsWritten(t, cityId, front);
      CityRowsKept(t, cityId, front, key);
      WritesFront(ws, last.slug);
      if key == (cityId, IdFor(t0, last.slug)) {
        assert last.slug in t'.categories && t'.categories[last.slug].id == key.1;
      } else if LinksWritten(t0, cityId, front, key) {
        var s :| s in t0.categories && Writes(front, s) && t0.categories[s].id == key.1;
        WritesFront(ws, s);
        assert s in t'.categories && t'.categories[s].id == key.1;
      }
    }
  }

  // ---- Repeating a sync ---------------------------------------------------------------------------------

  /** No new slug, no new id. */
  lemma {:induction false} NoNewIds(t: Tables, cityId: string, ws: seq<Write>)
    requires WellFormed(t) && forall i :: 0 <= i < |ws| ==> ws[i].slug in t.categories
    ensures Apply(t, cityId, ws).nextId == t.nextId
  {
    if ws != [] {
      NoNewIds(t, cityId, ws[..|ws| - 1]);
      ApplyAddsWritten(t, cityId, ws[..|ws| - 1]);
    }
  }

  lemma {:induction false} SameCategoryAgain(t: Tables, cityId: string, ws: seq<Write>, s: string)
    requires WellFormed(t)
    ensures var t1 := Apply(t, cityId, ws);
            var t2 := Apply(t1, cityId, ws);
            s in t1.categories ==> s in t2.categories && t2.categories[s] == t1.categories[s]
  {
    var t1 := Apply(t, cityId, ws);
    ApplyAddsWritten(t, cityId, ws);
    ApplyAddsWritten(t1, cityId, ws);
    if Writes(ws, s) {
      LastWriteWins(t, cityId, ws, s);
      LastWriteWins(t1, cityId, ws, s);
    }
  }

  lemma {:induction false} SameCityRowAgain(t: Tables, cityId: string, ws: seq<Write>, key: (string, nat))
    requires WellFormed(t)
    ensures var t1 := Apply(t, cityId, ws); SameRow(t1, Apply(t1, cityId, ws), key)
  {
    var t1 := Apply(t, cityId, ws);
    var t2 := Apply(t1, cityId, ws);
    ApplyAddsWritten(t, cityId, ws);
    ApplyAddsWritten(t1, cityId, ws);
    CityRowsKept(t1, cityId, ws, key);
    if LinksWritten(t2, cityId, ws, key) {
      CityRowsKept(t, cityId, ws, key);
      var s :| s in t2.categories && Writes(ws, s) && t2.categories[s].id == key.1;
      LastWriteWins(t, cityId, ws, s);
      LastWriteWins(t1, cityId, ws, s);
    }
  }

  /** Writing the same list again changes nothing at all. */
  lemma {:induction false} ApplyTwice(t: Tables, cityId: string, ws: seq<Write>)
    requires WellFormed(t)
    ensures Apply(Apply(t, cityId, ws), cityId, ws) == Apply(t, cityId, ws)
  {
    var t1 := Apply(t, cityId, ws);
    var t2 := Apply(t1, cityId, ws);
    WrittenExist(t, cityId, ws);
    NoNewIds(t1, cityId, ws);
    assert t2.categories == t1.categories by {
      forall s
        ensures s in t2.categories <==> s in t1.categories
        ensures s in t1.categories ==> t2.categories[s] == t1.categories[s]
      {
        SameCategoryAgain(t, cityId, ws, s);
        OnlyOldSlugs(t1, cityId, ws, s);
      }
    }
    forall key
      ensures SameRow(t1, t2, key)
    {
      SameCityRowAgain(t, cityId, ws, key);
    }
    SameRowsEqual(t1, t2);
  }

  lemma {:induction false} SameRowsEqual(a: Tables, b: Tables)
    requires forall key :: SameRow(a, b, key)
    ensures a.cityCategories == b.cityCategories
  {
    forall key
      ensures key in a.cityCategories <==> key in b.cityCategories
      ensures key in a.cityCategories ==> a.cityCategories[key] == b.cityCategories[key]
    {
      assert SameRow(a, b, key);
    }
  }

  lemma {:induction false} WrittenExist(t: Tables, cityId: string, ws: seq<Write>)
    requires WellFormed(t)
    ensures WellFormed(Apply(t, cityId, ws))
    ensures forall i :: 0 <= i < |ws| ==> ws[i].slug in Apply(t, cityId, ws).categories
  {
    ApplyAddsWritten(t, cityId, ws);
    forall i | 0 <= i < |ws|
      ensures Writes(ws, ws[i].slug)
    {
    }
  }

  lemma {:induction false} OnlyOldSlugs(t: Tables, cityId: string, ws: seq<Write>, s: string)
    requires WellFormed(t) && forall i :: 0 <= i < |ws| ==> ws[i].slug in t.categories
    ensures s in Apply(t, cityId, ws).categories ==> s in t.categories
  {
    ApplyAddsWritten(t, cityId, ws);
  }

  /** No root slug is ever written. */
  ghost predicate RootFree(ws: seq<Write>) {
    forall i, kind | 0 <= i < |ws| && RootCategoryInfo(kind).Some? :: ws[i].slug != RootCategoryInfo(kind).value.slug
  }

  lemma {:induction false} FacetSlugIsNoRoot(fold: char -> string, categories: map<string, Category>, f: Facet)
    ensures RootFree(WriteOf(fold, categories, f))
  {
    var ws := WriteOf(fold, categories, f);
    if ws != [] {
      var root := RootCategoryInfo(f.kind).value.slug;
      forall kind | RootCategoryInfo(kind).Some?
        ensures ws[0].slug != RootCategoryInfo(kind).value.slug
      {
        RootInitials(f.kind, kind);
        assert ws[0].slug[0] == root[0];
      }
    }
  }

  lemma {:induction false} WritesRootFree(fold: char -> string, categories: map<string, Category>, facets: seq<Facet>)
    ensures RootFree(WritesOf(fold, categories, facets))
  {
    if facets != [] {
      WritesRootFree(fold, categories, facets[..|facets| - 1]);
      FacetSlugIsNoRoot(fold, categories, facets[|facets| - 1]);
    }
  }

  lemma {:induction false} GroupsRootFree(fold: char -> string, categories: map<string, Category>, groups: Groups)
    ensures RootFree(GroupWrites(fold, categories, groups))
  {
    if groups != [] {
      GroupsRootFree(fold, categories, groups[..|groups| - 1]);
      WritesRootFree(fold, categories, groups[|groups| - 1].items);
    }
  }

  /** So the roots are the same before and after: present or missing alike, with the same id. */
  ghost predicate SameRoots(a: map<string, Category>, b: map<string, Category>) {
    forall kind | RootCategoryInfo(kind).Some? ::
      var slug := RootCategoryInfo(kind).value.slug;
      (slug in a <==> slug in b) && (slug in a ==> a[slug].id == b[slug].id)
  }

  lemma {:induction false} RootsKept(t: Tables, cityId: string, ws: seq<Write>)
    requires WellFormed(t) && RootFree(ws)
    ensures SameRoots(t.categories, Apply(t, cityId, ws).categories)
  {
    ApplyAddsWritten(t, cityId, ws);
    forall kind | RootCategoryInfo(kind).Some?
      ensures !Writes(ws, RootCategoryInfo(kind).value.slug)
    {
    }
  }

  lemma {:induction false} SameWrites(fold: char -> string, a: map<string, Category>, b: map<string, Category>,
      facets: seq<Facet>)
    requires SameRoots(a, b)
    ensures WritesOf(fold, a, facets) == WritesOf(fold, b, facets)
  {
    if facets != [] { SameWrites(fold, a, b, facets[..|facets| - 1]); }
  }

  lemma {:induction false} SameGroupWrites(fold: char -> string, a: map<string, Category>, b: map<string, Category>,
      groups: Groups)
    requires SameRoots(a, b)
    ensures GroupWrites(fold, a, groups) == GroupWrites(fold, b, groups)
  {
    if groups != [] {
      SameGroupWrites(fold, a, b, groups[..|groups| - 1]);
      SameWrites(fold, a, b, groups[|groups| - 1].items);
    }
  }

  function KindOf(f: Facet): string { f.kind }

  /** What `syncCategoriesFromIntegration` does to the tables. */
  function Synced(fold: char -> string, t: Tables, cityId: string, facets: seq<Facet>): Tables {
    Apply(t, cityId, GroupWrites(fold, t.categories, Grouping.GroupBy(facets, KindOf)))
  }

  /** Repeating a category sync leaves both tables as they are, so it creates no city category. */
  lemma {:induction false} SyncTwice(fold: char -> string, t: Tables, cityId: string, facets: seq<Facet>)
    requires WellFormed(t)
    ensures WellFormed(Synced(fold, t, cityId, facets))
    ensures Synced(fold, Synced(fold, t, cityId, facets), cityId, facets) == Synced(fold, t, cityId, facets)
  {
    var groups := Grouping.GroupBy(facets, KindOf);
    var ws := GroupWrites(fold, t.categories, groups);
    GroupsRootFree(fold, t.categories, groups);
    RootsKept(t, cityId, ws);
    ApplyAddsWritten(t, cityId, ws);
    SameGroupWrites(fold, t.categories, Synced(fold, t, cityId, facets).categories, groups);
    ApplyTwice(t, cityId, ws);
  }

  // ---- The two services agree -----------------------------------------------------------------------------

  ghost predicate WritesSlug(fold: char -> string, categories: map<string, Category>, f: Facet, slug: string) {
    Writes(WriteOf(fold, categories, f), slug)
  }

  lemma {:induction false} WritesConcat(a: seq<Write>, b: seq<Write>, slug: string)
    ensures Writes(a + b, slug) <==> Writes(a, slug) || Writes(b, slug)
  {
    if i :| 0 <= i < |a + b| && (a + b)[i].slug == slug {
      assert if i < |a| then a[i].slug == slug else b[i - |a|].slug == slug;
    }
    if i :| 0 <= i < |a| && a[i].slug == slug { assert (a + b)[i].slug == slug; }
    if i :| 0 <= i < |b| && b[i].slug == slug { assert (a + b)[|a| + i].slug == slug; }
  }

  lemma {:induction false} WrittenByFacet(fold: char -> string, categories: map<string, Category>, facets: seq<Facet>,
      slug: string)
    ensures Writes(WritesOf(fold, categories, facets), slug) <==>
            exists f :: f in facets && WritesSlug(fold, categories, f, slug)
  {
    if facets != [] {
      var front, last := facets[..|facets| - 1], facets[|facets| - 1];
      assert facets == front + [last];
      WrittenByFacet(fold, categories, front, slug);
      WritesConcat(WritesOf(fold, categories, front), WriteOf(fold, categories, last), slug);
      if f :| f in front && WritesSlug(fold, categories, f, slug) { assert f in facets; }
      if WritesSlug(fold, categories, last, slug) { assert last in facets; }
    } else {
      assert !Writes(WritesOf(fold, categories, facets), slug);
    }
  }

  ghost predicate InGroup(groups: Groups, f: Facet) {
    exists g :: g in groups && f in g.items
  }

  lemma {:induction false} WrittenByGroup(fold: char -> string, categories: map<string, Category>, groups: Groups,
      slug: string)
    ensures Writes(GroupWrites(fold, categories, groups), slug) <==>
            exists f :: InGroup(groups, f) && WritesSlug(fold, categories, f, slug)
  {
    if groups != [] {
      var front, last := groups[..|groups| - 1], groups[|groups| - 1];
      assert groups == front + [last];
      WrittenByGroup(fold, categories, front, slug);
      WrittenByFacet(fold, categories, last.items, slug);
      WritesConcat(GroupWrites(fold, categories, front), WritesOf(fold, categories, last.items), slug);
      forall f
        ensures InGroup(groups, f) <==> InGroup(front, f) || f in last.items
      {
        if InGroup(front, f) { var g :| g in front && f in g.items; assert g in groups; }
        if f in last.items { assert last in groups; }
      }
    }
  }

  lemma {:induction false} GroupsHoldFacets(facets: seq<Facet>, f: Facet)
    ensures InGroup(Grouping.GroupBy(facets, KindOf), f) <==> f in facets
  {
    var groups := Grouping.GroupBy(facets, KindOf);
    Grouping.GroupByPartitions(facets, KindOf);
    if g :| g in groups && f in g.items {
      Grouping.GroupIsFiled(groups, g);
      Grouping.WithKeyMember(facets, KindOf, g.key, f);
    }
    if f in facets {
      Grouping.WithKeyMember(facets, KindOf, f.kind, f);
      Grouping.KeyHasGroup(groups, f.kind);
    }
  }

  /** Some facet of the item's type carries a label with the same slug as this category. */
  ghost predicate Covered(fold: char -> string, facets: seq<Facet>, kind: string, category: string) {
    exists f :: f in facets && f.kind == kind && f.field == "category"
      && Slugs.Slugify(fold, f.name) == Slugs.Slugify(fold, category)
  }

  lemma {:induction false} FacetWritesIff(fold: char -> string, categories: map<string, Category>, f: Facet,
      kind: string, category: string)
    requires DestinationOne.RootCategoryOf(kind).Some? && DestinationOne.RootCategoryOf(kind).value.slug in categories
    ensures WritesSlug(fold, categories, f,
        DestinationOne.SubSlug(fold, DestinationOne.RootCategoryOf(kind).value.slug, category)) <==>
            f.kind == kind && f.field == "category" && Slugs.Slugify(fold, f.name) == Slugs.Slugify(fold, category)
  {
    TablesAgree(kind);
    var root := RootCategoryInfo(kind).value.slug;
    var slug := DestinationOne.SubSlug(fold, root, category);
    var ws := WriteOf(fold, categories, f);
    if ws != [] {
      RootInitials(f.kind, kind);
      assert ws[0].slug[0] == RootCategoryInfo(f.kind).value.slug[0] && slug[0] == root[0];
      if f.kind == kind {
        assert ws[0].slug[|root| + 1..] == Slugs.Slugify(fold, f.name);
        assert slug[|root| + 1..] == Slugs.Slugify(fold, category);
      }
    }
  }

  /** A sync adds exactly the slugs that some facet asks for. */
  lemma {:induction false} SyncAddsExactly(fold: char -> string, t: Tables, cityId: string, facets: seq<Facet>,
      slug: string)
    requires WellFormed(t)
    ensures slug in Synced(fold, t, cityId, facets).categories <==>
            slug in t.categories || exists f :: f in facets && WritesSlug(fold, t.categories, f, slug)
  {
    var groups := Grouping.GroupBy(facets, KindOf);
    ApplyAddsWritten(t, cityId, GroupWrites(fold, t.categories, groups));
    WrittenByGroup(fold, t.categories, groups, slug);
    forall f
      ensures InGroup(groups, f) <==> f in facets
    {
      GroupsHoldFacets(facets, f);
    }
  }

  /** Every slug the integration sends for the item names a category. */
  ghost predicate Resolves(fold: char -> string, t: Tables, item: DestinationOne.Item) {
    forall s :: DestinationOne.Emits(fold, item, s) ==> s in t.categories
  }

  /**
   * With the root seeded, after the category sync every slug that `transformToListing` emits for an
   * item resolves exactly when each of its categories was there before or is covered by a facet.
   */
  lemma {:induction false} ItemResolvesIff(fold: char -> string, t: Tables, cityId: string, facets: seq<Facet>,
      item: DestinationOne.Item)
    requires WellFormed(t)
    requires var root := DestinationOne.RootCategoryOf(item.kind); root.Some? && root.value.slug in t.categories
    ensures Resolves(fold, Synced(fold, t, cityId, facets), item) <==>
            forall c :: c in item.categories ==>
              || DestinationOne.SubSlug(fold, DestinationOne.RootCategoryOf(item.kind).value.slug, c) in t.categories
              || Covered(fold, facets, item.kind, c)
  {
    var root := DestinationOne.RootCategoryOf(item.kind).value.slug;
    var groups := Grouping.GroupBy(facets, KindOf);
    var ws := GroupWrites(fold, t.categories, groups);
    var t' := Synced(fold, t, cityId, facets);
    ApplyAddsWritten(t, cityId, ws);
    forall c | c in item.categories
      ensures DestinationOne.Emits(fold, item, DestinationOne.SubSlug(fold, root, c))
      ensures DestinationOne.SubSlug(fold, root, c) in t'.categories <==>
              DestinationOne.SubSlug(fold, root, c) in t.categories || Covered(fold, facets, item.kind, c)
    {
      WrittenIffCovered(fold, t, facets, item.kind, c);
    }
    assert DestinationOne.Emits(fold, item, root);
  }

  lemma {:induction false} WrittenIffCovered(fold: char -> string, t: Tables, facets: seq<Facet>, kind: string,
      category: string)
    requires var root := DestinationOne.RootCategoryOf(kind); root.Some? && root.value.slug in t.categories
    ensures Writes(GroupWrites(fold, t.categories, Grouping.GroupBy(facets, KindOf)),
                   DestinationOne.SubSlug(fold, DestinationOne.RootCategoryOf(kind).value.slug, category)) <==>
            Covered(fold, facets, kind, category)
  {
    var slug := DestinationOne.SubSlug(fold, DestinationOne.RootCategoryOf(kind).value.slug, category);
    var groups := Grouping.GroupBy(facets, KindOf);
    WrittenByGroup(fold, t.categories, groups, slug);
    forall f
      ensures InGroup(groups, f) <==> f in facets
      ensures WritesSlug(fold, t.categories, f, slug) <==>
              f.kind == kind && f.field == "category" && Slugs.Slugify(fold, f.name) == Slugs.Slugify(fold, category)
    {
      GroupsHoldFacets(facets, f);
      FacetWritesIff(fold, t.categories, f, kind, category);
    }
  }

  // ---- What a sync stores --------------------------------------------------------------------------------------

  /** The facet names a category of a known type whose root is seeded, and this is the category's slug. */
  ghost predicate AsksFor(fold: char -> string, categories: map<string, Category>, f: Facet, slug: string) {
    && f.field == "category"
    && RootCategoryInfo(f.kind).Some? && RootCategoryInfo(f.kind).value.slug in categories
    && slug == RootCategoryInfo(f.kind).value.slug + "-" + Slugs.Slugify(fold, f.name)
  }

  lemma {:induction false} AsksMeans(fold: char -> string, categories: map<string, Category>, f: Facet, slug: string)
    ensures WritesSlug(fold, categories, f, slug) <==> AsksFor(fold, categories, f, slug)
    ensures AsksFor(fold, categories, f, slug) ==>
              var root := RootCategoryInfo(f.kind).value;
              WriteOf(fold, categories, f) == [Write(slug, f.name, root.categoryType, categories[root.slug].id)]
  {
    var ws := WriteOf(fold, categories, f);
    if AsksFor(fold, categories, f, slug) { assert ws[0].slug == slug; }
  }

  lemma {:induction false} SameKindAsks(fold: char -> string, categories: map<string, Category>, f: Facet, g: Facet,
      slug: string)
    requires AsksFor(fold, categories, f, slug) && AsksFor(fold, categories, g, slug)
    ensures f.kind == g.kind
  {
    RootInitials(f.kind, g.kind);
    assert slug[0] == RootCategoryInfo(f.kind).value.slug[0] && slug[0] == RootCategoryInfo(g.kind).value.slug[0];
  }

  lemma {:induction false} LastOfConcat(a: seq<Write>, b: seq<Write>, slug: string)
    requires Writes(a + b, slug)
    ensures Writes(b, slug) ==> LastWrite(a + b, slug) == LastWrite(b, slug)
    ensures !Writes(b, slug) ==> Writes(a, slug) && LastWrite(a + b, slug) == LastWrite(a, slug)
    decreases |b|
  {
    WritesConcat(a, b, slug);
    if b == [] {
      assert a + b == a;
    } else {
      var front := b[..|b| - 1];
      assert (a + b)[..|a + b| - 1] == a + front && (a + b)[|a + b| - 1] == b[|b| - 1];
      WritesFront(a + b, slug);
      WritesFront(b, slug);
      if b[|b| - 1].slug != slug { LastOfConcat(a, front, slug); }
    }
  }

  ghost predicate WrittenLast(ws: seq<Write>, slug: string, w: Write) {
    Writes(ws, slug) && LastWrite(ws, slug) == w
  }

  lemma {:induction false} WrittenLastConcat(a: seq<Write>, b: seq<Write>, slug: string, w: Write)
    requires WrittenLast(b, slug, w) || (WrittenLast(a, slug, w) && !Writes(b, slug))
    ensures WrittenLast(a + b, slug, w)
  {
    WritesConcat(a, b, slug);
    LastOfConcat(a, b, slug);
  }

  /** The facet asks for the slug, and none after it does. */
  ghost predicate AsksLast(fold: char -> string, categories: map<string, Category>, facets: seq<Facet>, i: nat,
      slug: string) {
    && i < |facets| && AsksFor(fold, categories, facets[i], slug)
    && forall j :: i < j < |facets| ==> !AsksFor(fold, categories, facets[j], slug)
  }

  /** The upsert of a facet that asks for the slug. */
  ghost function Asked(categories: map<string, Category>, f: Facet, slug: string): Write
    requires RootCategoryInfo(f.kind).Some? && RootCategoryInfo(f.kind).value.slug in categories
  {
    var root := RootCategoryInfo(f.kind).value;
    Write(slug, f.name, root.categoryType, categories[root.slug].id)
  }

  lemma {:induction false} OneFacetWrites(fold: char -> string, categories: map<string, Category>, f: Facet,
      slug: string)
    ensures AsksFor(fold, categories, f, slug) ==>
              WrittenLast(WriteOf(fold, categories, f), slug, Asked(categories, f, slug))
    ensures !AsksFor(fold, categories, f, slug) ==> !Writes(WriteOf(fold, categories, f), slug)
  {
    AsksMeans(fold, categories, f, slug);
    if AsksFor(fold, categories, f, slug) { assert WriteOf(fold, categories, f)[0].slug == slug; }
  }

  lemma {:induction false} WithKindOfFront(facets: seq<Facet>, kind: string)
    requires facets != []
    ensures var front, last := facets[..|facets| - 1], facets[|facets| - 1];
            Grouping.WithKey(facets, KindOf, kind) ==
              if last.kind == kind then Grouping.WithKey(front, KindOf, kind) + [last]
              else Grouping.WithKey(front, KindOf, kind)
  {
  }

  lemma {:induction false} AsksLastOfFront(fold: char -> string, categories: map<string, Category>,
      facets: seq<Facet>, i: nat, slug: string)
    requires AsksLast(fold, categories, facets, i, slug) && i < |facets| - 1
    ensures AsksLast(fold, categories, facets[..|facets| - 1], i, slug)
    ensures !AsksFor(fold, categories, facets[|facets| - 1], slug)
  {
  }

  lemma {:induction false} KindStep(fold: char -> string, categories: map<string, Category>, facets: seq<Facet>,
      kind: string, slug: string, w: Write)
    requires facets != []
    requires var front, last := facets[..|facets| - 1], facets[|facets| - 1];
             || (last.kind == kind && WrittenLast(WriteOf(fold, categories, last), slug, w))
             || (WrittenLast(WritesOf(fold, categories, Grouping.WithKey(front, KindOf, kind)), slug, w)
                 && !Writes(WriteOf(fold, categories, last), slug))
    ensures WrittenLast(WritesOf(fold, categories, Grouping.WithKey(facets, KindOf, kind)), slug, w)
  {
    var last, before := facets[|facets| - 1], Grouping.WithKey(facets[..|facets| - 1], KindOf, kind);
    WithKindOfFront(facets, kind);
    if last.kind == kind {
      WritesWithLast(fold, categories, before, last);
      WrittenLastConcat(WritesOf(fold, categories, before), WriteOf(fold, categories, last), slug, w);
    }
  }

  /** Among the facets of one type, the last that asks for a slug is the last to write it. */
  lemma {:induction false} LastInKind(fold: char -> string, categories: map<string, Category>, facets: seq<Facet>,
      i: nat, slug: string)
    requires AsksLast(fold, categories, facets, i, slug)
    ensures WrittenLast(WritesOf(fold, categories, Grouping.WithKey(facets, KindOf, facets[i].kind)), slug,
                        Asked(categories, facets[i], slug))
    decreases |facets|
  {
    var n := |facets| - 1;
    if i < n {
      AsksLastOfFront(fold, categories, facets, i, slug);
      LastInKind(fold, categories, facets[..n], i, slug);
    }
    OneFacetWrites(fold, categories, facets[n], slug);
    KindStep(fold, categories, facets, facets[i].kind, slug, Asked(categories, facets[i], slug));
  }

  lemma {:induction false} WritesWithLast(fold: char -> string, categories: map<string, Category>, facets: seq<Facet>,
      last: Facet)
    ensures WritesOf(fold, categories, facets + [last]) ==
              WritesOf(fold, categories, facets) + WriteOf(fold, categories, last)
  {
    assert (facets + [last])[..|facets|] == facets;
  }

  /** Groups under different keys, each with facets of its own type. */
  ghost predicate ByKind(groups: Groups) {
    && (forall a, b :: 0 <= a < b < |groups| ==> groups[a].key != groups[b].key)
    && forall a, f | 0 <= a < |groups| && f in groups[a].items :: f.kind == groups[a].key
  }

  lemma {:induction false} GroupedByKind(facets: seq<Facet>)
    ensures ByKind(Grouping.GroupBy(facets, KindOf))
  {
    var groups := Grouping.GroupBy(facets, KindOf);
    Grouping.GroupByPartitions(facets, KindOf);
    forall a, b | 0 <= a < b < |groups|
      ensures groups[a].key != groups[b].key
    {
      Grouping.KeysDiffer(groups, a, b);
    }
    forall a | 0 <= a < |groups|
      ensures forall f :: f in groups[a].items ==> f.kind == groups[a].key
    {
      GroupIsOfKind(facets, groups[a]);
    }
  }

  lemma {:induction false} OthersDoNotWrite(fold: char -> string, categories: map<string, Category>,
      facets: seq<Facet>, f: Facet, slug: string)
    requires AsksFor(fold, categories, f, slug) && forall x :: x in facets ==> x.kind != f.kind
    ensures !Writes(WritesOf(fold, categories, facets), slug)
  {
    WrittenByFacet(fold, categories, facets, slug);
    forall x | x in facets
      ensures !WritesSlug(fold, categories, x, slug)
    {
      AsksMeans(fold, categories, x, slug);
      if AsksFor(fold, categories, x, slug) { SameKindAsks(fold, categories, x, f, slug); }
    }
  }

  /** Only the group of its type writes a facet's slug. */
  lemma {:induction false} LastInGroups(fold: char -> string, categories: map<string, Category>, groups: Groups,
      f: Facet, slug: string, a: nat, w: Write)
    requires ByKind(groups) && AsksFor(fold, categories, f, slug)
    requires a < |groups| && groups[a].key == f.kind
    requires WrittenLast(WritesOf(fold, categories, groups[a].items), slug, w)
    ensures WrittenLast(GroupWrites(fold, categories, groups), slug, w)
    decreases |groups|
  {
    var n := |groups| - 1;
    if a < n {
      ByKindFront(groups);
      LastInGroups(fold, categories, groups[..n], f, slug, a, w);
      OthersDoNotWrite(fold, categories, groups[n].items, f, slug);
    }
    WrittenLastConcat(GroupWrites(fold, categories, groups[..n]), WritesOf(fold, categories, groups[n].items), slug, w);
  }

  lemma {:induction false} ByKindFront(groups: Groups)
    requires ByKind(groups) && groups != []
    ensures ByKind(groups[..|groups| - 1])
    ensures forall a, f | 0 <= a < |groups| - 1 && f in groups[|groups| - 1].items :: f.kind != groups[a].key
  {
  }

  lemma {:induction false} LastFacetWrites(fold: char -> string, categories: map<string, Category>,
      facets: seq<Facet>, i: nat, slug: string)
    requires AsksLast(fold, categories, facets, i, slug)
    ensures WrittenLast(GroupWrites(fold, categories, Grouping.GroupBy(facets, KindOf)), slug,
                        Asked(categories, facets[i], slug))
  {
    var groups, kind := Grouping.GroupBy(facets, KindOf), facets[i].kind;
    Grouping.GroupByPartitions(facets, KindOf);
    Grouping.WithKeyMember(facets, KindOf, kind, facets[i]);
    Grouping.KeyHasGroup(groups, kind);
    var a :| 0 <= a < |groups| && groups[a] == Grouping.Group(kind, Grouping.ItemsOf(groups, kind));
    GroupedByKind(facets);
    LastInKind(fold, categories, facets, i, slug);
    LastInGroups(fold, categories, groups, facets[i], slug, a, Asked(categories, facets[i], slug));
  }

  /**
   * What a sync stores for a facet, unless a later one asks for the same slug: an active category of
   * that label below its type's root, under its old id or a new one, and the city's link to it with
   * the label, in the place it had or else in the first.
   */
  lemma {:induction false} FacetStored(fold: char -> string, t: Tables, cityId: string, facets: seq<Facet>, i: nat,
      slug: string)
    requires WellFormed(t) && AsksLast(fold, t.categories, facets, i, slug)
    ensures var f, root, t' := facets[i], RootCategoryInfo(facets[i].kind).value, Synced(fold, t, cityId, facets);
            && slug in t'.categories
            && var id := t'.categories[slug].id;
            && t'.categories[slug]
               == Category(id, f.name, Some(root.categoryType), Some(t.categories[root.slug].id), true)
            && (slug in t.categories ==> id == t.categories[slug].id)
            && (cityId, id) in t'.cityCategories
            && t'.cityCategories[(cityId, id)].displayName == Some(f.name)
            && t'.cityCategories[(cityId, id)].isActive
            && t'.cityCategories[(cityId, id)].displayOrder
               == if (cityId, id) in t.cityCategories then t.cityCategories[(cityId, id)].displayOrder else 0
  {
    var ws := GroupWrites(fold, t.categories, Grouping.GroupBy(facets, KindOf));
    LastFacetWrites(fold, t.categories, facets, i, slug);
    LastWriteWins(t, cityId, ws, slug);
    ApplyAddsWritten(t, cityId, ws);
  }

  lemma {:induction false} GroupWritesFront(fold: char -> string, categories: map<string, Category>, groups: Groups)
    requires groups != []
    ensures GroupWrites(fold, categories, groups) ==
              WritesOf(fold, categories, groups[0].items) + GroupWrites(fold, categories, groups[1..])
  {
    var n := |groups| - 1;
    if n > 0 {
      GroupWritesFront(fold, categories, groups[..n]);
      assert groups[..n][1..] == groups[1..][..n - 1] && groups[1..][n - 1] == groups[n];
      ConcatAssoc(WritesOf(fold, categories, groups[0].items), GroupWrites(fold, categories, groups[1..][..n - 1]),
                  WritesOf(fold, categories, groups[n].items));
    }
  }

  lemma {:induction false} PutWrites(fold: char -> string, categories: map<string, Category>, groups: Groups,
      kind: string, f: Facet)
    ensures |GroupWrites(fold, categories, Grouping.Put(groups, kind, f))| ==
              |GroupWrites(fold, categories, groups)| + |WriteOf(fold, categories, f)|
  {
    var after := Grouping.Put(groups, kind, f);
    GroupWritesFront(fold, categories, after);
    if groups == [] {
      WritesWithLast(fold, categories, [], f);
      assert [] + [f] == [f];
    } else {
      GroupWritesFront(fold, categories, groups);
      Grouping.PutTail(groups, kind, f);
      if groups[0].key == kind {
        WritesWithLast(fold, categories, groups[0].items, f);
      } else {
        PutWrites(fold, categories, groups[1..], kind, f);
      }
    }
  }

  /** The facets of a known type with a seeded root that name a category, by their places. */
  ghost function Asking(categories: map<string, Category>, facets: seq<Facet>): set<nat> {
    set i: nat | i < |facets| && facets[i].field == "category" && RootCategoryInfo(facets[i].kind).Some?
      && RootCategoryInfo(facets[i].kind).value.slug in categories
  }

  lemma {:induction false} AskingNext(fold: char -> string, categories: map<string, Category>, facets: seq<Facet>)
    requires facets != []
    ensures var n := |facets| - 1;
            |Asking(categories, facets)| ==
              |Asking(categories, facets[..n])| + |WriteOf(fold, categories, facets[n])|
  {
    var n := |facets| - 1;
    assert n !in Asking(categories, facets[..n]);
    assert Asking(categories, facets) == Asking(categories, facets[..n])
        + if WriteOf(fold, categories, facets[n]) == [] then {} else {n};
  }

  /** The city categories a sync reports, created and updated together: one for each facet that names a category. */
  lemma {:induction false} WritesCount(fold: char -> string, categories: map<string, Category>, facets: seq<Facet>)
    ensures |GroupWrites(fold, categories, Grouping.GroupBy(facets, KindOf))| == |Asking(categories, facets)|
  {
    if facets != [] {
      var n := |facets| - 1;
      WritesCount(fold, categories, facets[..n]);
      PutWrites(fold, categories, Grouping.GroupBy(facets[..n], KindOf), facets[n].kind, facets[n]);
      AskingNext(fold, categories, facets);
    }
  }

  ghost predicate NobodyAsks(fold: char -> string, categories: map<string, Category>, facets: seq<Facet>,
      slug: string) {
    forall f :: f in facets ==> !AsksFor(fold, categories, f, slug)
  }

  /** What no facet asks for stays as it was: other categories, other cities' links, and other links of the city. */
  lemma {:induction false} OthersKept(fold: char -> string, t: Tables, cityId: string, facets: seq<Facet>, slug: string,
      key: (string, nat))
    requires WellFormed(t)
    ensures var t' := Synced(fold, t, cityId, facets);
            && (key.0 != cityId ==> SameRow(t, t', key))
            && (NobodyAsks(fold, t.categories, facets, slug) ==>
                && (slug in t'.categories <==> slug in t.categories)
                && (slug in t.categories ==>
                      t'.categories[slug] == t.categories[slug]
                      && (t.categories[slug].id == key.1 ==> SameRow(t, t', key))))
  {
    var ws := GroupWrites(fold, t.categories, Grouping.GroupBy(facets, KindOf));
    ApplyAddsWritten(t, cityId, ws);
    CityRowsKept(t, cityId, ws, key);
    if NobodyAsks(fold, t.categories, facets, slug) { NotWritten(fold, t.categories, facets, slug); }
  }

  lemma {:induction false} NotWritten(fold: char -> string, categories: map<string, Category>, facets: seq<Facet>,
      slug: string)
    requires NobodyAsks(fold, categories, facets, slug)
    ensures !Writes(GroupWrites(fold, categories, Grouping.GroupBy(facets, KindOf)), slug)
  {
    var groups := Grouping.GroupBy(facets, KindOf);
    WrittenByGroup(fold, categories, groups, slug);
    forall f
      ensures f in facets ==> !WritesSlug(fold, categories, f, slug)
      ensures InGroup(groups, f) <==> f in facets
    {
      GroupsHoldFacets(facets, f);
      AsksMeans(fold, categories, f, slug);
    }
  }

  // ---- The service -------------------------------------------------------------------------------------------

  method GroupFacets(facets: seq<Facet>) returns (facetsByType: Groups)
    ensures facetsByType == Grouping.GroupBy(facets, KindOf)
  {
    facetsByType := [];
    for i := 0 to |facets|
      invariant facetsByType == Grouping.GroupBy(facets[..i], KindOf)
    {
      assert facets[..i + 1][..i] == facets[..i];
      facetsByType := Grouping.Put(facetsByType, facets[i].kind, facets[i]);
    }
    assert facets[..|facets|] == facets;
  }

  class CoreService {
    var categories: map<string, Category>
    var cityCategories: map<(string, nat), CityCategory>
    var nextId: nat

    function View(): Tables
      reads this
    {
      Tables(categories, cityCategories, nextId)
    }

    /** Upsert the category and the city's link to it; tells whether the link is new. */
    method UpsertFacet(cityId: string, w: Write) returns (isNew: bool)
      modifies this
      ensures View() == ApplyOne(old(View()), cityId, w)
      ensures |cityCategories| == |old(cityCategories)| + if isNew then 1 else 0
    {
      var id;
      if w.slug in categories {
        id := categories[w.slug].id;
      } else {
        id, nextId := nextId, nextId + 1;
      }
      categories := categories[w.slug := Category(id, w.name, Some(w.categoryType), Some(w.parentId), true)];
      var key := (cityId, id);
      isNew := key !in cityCategories;
      if isNew {
        cityCategories := cityCategories[key := CityCategory(Some(w.name), 0, true)];
      } else {
        cityCategories := cityCategories[key := cityCategories[key].(displayName := Some(w.name), isActive := true)];
      }
    }

    /** All facets of one type; `done` is what was written before, starting from `start`. */
    method SyncGroup(fold: char -> string, cityId: string, kind: string, facets: seq<Facet>, ghost start: Tables,
        ghost done: seq<Write>)
      returns (created: nat, updated: nat)
      requires WellFormed(start) && RootFree(done) && View() == Apply(start, cityId, done)
      requires forall f :: f in facets ==> f.kind == kind
      modifies this
      ensures View() == Apply(start, cityId, done + WritesOf(fold, start.categories, facets))
      ensures |cityCategories| == |old(cityCategories)| + created
      ensures created + updated == |WritesOf(fold, start.categories, facets)|
    {
      created, updated := 0, 0;
      var root := RootCategoryInfo(kind);
      RootsKept(start, cityId, done);
      if root.None? || root.value.slug !in categories {
        NothingToWrite(fold, start.categories, kind, facets);
        assert done + [] == done;
        return;
      }
      var rootCategory := categories[root.value.slug];
      assert done + WritesOf(fold, start.categories, facets[..0]) == done;
      for i := 0 to |facets|
        invariant View() == Apply(start, cityId, done + WritesOf(fold, start.categories, facets[..i]))
        invariant |cityCategories| == |old(cityCategories)| + created
        invariant created + updated == |WritesOf(fold, start.categories, facets[..i])|
      {
        var facet := facets[i];
        OneFacetMore(fold, start, cityId, done, facets, i);
        if facet.field == "category" {
          var slug := root.value.slug + "-" + Slugs.Slugify(fold, facet.name);
          var isNew := UpsertFacet(cityId, Write(slug, facet.name, root.value.categoryType, rootCategory.id));
          if isNew { created := created + 1; } else { updated := updated + 1; }
        }
      }
      assert facets[..|facets|] == facets;
    }

    /** Group after group. */
    method SyncGroups(fold: char -> string, cityId: string, facets: seq<Facet>, groups: Groups)
      returns (created: nat, updated: nat)
      requires WellFormed(View()) && groups == Grouping.GroupBy(facets, KindOf)
      modifies this
      ensures View() == Synced(fold, old(View()), cityId, facets)
      ensures |cityCategories| == |old(cityCategories)| + created
      ensures created + updated == |GroupWrites(fold, old(View()).categories, groups)|
    {
      ghost var start := View();
      created, updated := 0, 0;
      ghost var done: seq<Write> := [];
      for k := 0 to |groups|
        invariant done == GroupWrites(fold, start.categories, groups[..k]) && View() == Apply(start, cityId, done)
        invariant |cityCategories| == |old(cityCategories)| + created
        invariant created + updated == |done|
      {
        GroupsRootFree(fold, start.categories, groups[..k]);
        GroupIsOfKind(facets, groups[k]);
        OneGroupMore(fold, start.categories, groups, k);
        var more, again := SyncGroup(fold, cityId, groups[k].key, groups[k].items, start, done);
        done := done + WritesOf(fold, start.categories, groups[k].items);
        created, updated := created + more, updated + again;
      }
      assert groups[..|groups|] == groups;
    }

    /**
     * The tables become `Synced`; every facet that asks for a category counts once, as created
     * exactly when the city gained a row, so never when the tables stay as they are.
     */
    method SyncCategoriesFromIntegration(fold: char -> string, cityId: string, facets: seq<Facet>)
      returns (cityCategoriesCreated: nat, cityCategoriesUpdated: nat)
      requires WellFormed(View())
      modifies this
      ensures View() == Synced(fold, old(View()), cityId, facets) && WellFormed(View())
      ensures |cityCategories| == |old(cityCategories)| + cityCategoriesCreated
      ensures Synced(fold, old(View()), cityId, facets) == old(View()) ==> cityCategoriesCreated == 0
      ensures cityCategoriesCreated + cityCategoriesUpdated == |Asking(old(View()).categories, facets)|
    {
      SyncTwice(fold, View(), cityId, facets);
      WritesCount(fold, categories, facets);
      var groups := GroupFacets(facets);
      cityCategoriesCreated, cityCategoriesUpdated := SyncGroups(fold, cityId, facets, groups);
    }
  }

  lemma {:induction false} OneGroupMore(fold: char -> string, categories: map<string, Category>, groups: Groups, k: nat)
    requires k < |groups|
    ensures GroupWrites(fold, categories, groups[..k + 1]) ==
              GroupWrites(fold, categories, groups[..k]) + WritesOf(fold, categories, groups[k].items)
  {
    assert groups[..k + 1][..k] == groups[..k];
  }

  lemma {:induction false} GroupIsOfKind(facets: seq<Facet>, g: Grouping.Group<string, Facet>)
    requires g in Grouping.GroupBy(facets, KindOf)
    ensures forall f :: f in g.items ==> f.kind == g.key
  {
    Grouping.GroupByPartitions(facets, KindOf);
    Grouping.GroupIsFiled(Grouping.GroupBy(facets, KindOf), g);
    forall f | f in g.items
      ensures f.kind == g.key
    {
      Grouping.WithKeyMember(facets, KindOf, g.key, f);
    }
  }

  lemma {:induction false} NothingToWrite(fold: char -> string, categories: map<string, Category>, kind: string,
      facets: seq<Facet>)
    requires forall f :: f in facets ==> f.kind == kind
    requires RootCategoryInfo(kind).None? || RootCategoryInfo(kind).value.slug !in categories
    ensures WritesOf(fold, categories, facets) == []
  {
    if facets != [] {
      assert facets[|facets| - 1] in facets;
      NothingToWrite(fold, categories, kind, facets[..|facets| - 1]);
    }
  }

  lemma {:induction false} AtMostOneMore(t: Tables, cityId: string, ws: seq<Write>, w: seq<Write>)
    requires |w| <= 1
    ensures Apply(t, cityId, ws + w) ==
              if w == [] then Apply(t, cityId, ws) else ApplyOne(Apply(t, cityId, ws), cityId, w[0])
  {
    if w == [] {
      assert ws + w == ws;
    } else {
      assert (ws + w)[..|ws + w| - 1] == ws;
    }
  }

  lemma {:induction false} OneFacetMore(fold: char -> string, t: Tables, cityId: string, done: seq<Write>,
      facets: seq<Facet>, i: nat)
    requires i < |facets|
    ensures var ws, w := WritesOf(fold, t.categories, facets[..i]), WriteOf(fold, t.categories, facets[i]);
            && WritesOf(fold, t.categories, facets[..i + 1]) == ws + w
            && Apply(t, cityId, done + (ws + w)) ==
                 if w == [] then Apply(t, cityId, done + ws) else ApplyOne(Apply(t, cityId, done + ws), cityId, w[0])
  {
    assert facets[..i + 1][..i] == facets[..i];
    var ws, w := WritesOf(fold, t.categories, facets[..i]), WriteOf(fold, t.categories, facets[i]);
    assert done + (ws + w) == (done + ws) + w;
    AtMostOneMore(t, cityId, done + ws, w);
  }
}
