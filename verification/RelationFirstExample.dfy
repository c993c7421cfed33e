/** A relation whose association key may be NULL: both rewrites are chosen, and neither answers like EXISTS. */
module RelationFirstExample {
  import opened SqlValues
  import opened Schema
  import opened PredicateMeaning
  import opened Ordering
  import opened Keyset
  import opened SelectClause
  import opened Pagination
  import opened LimitFirst
  import opened RelationRewrite
  import opened RelationFirst
  import opened RelationFirstMeaning

  const AUTHOR_ID := Field("ID", "id", KindInt, 0, true, false, true, false)
  const POST_ID := Field("ID", "id", KindInt, 0, true, false, true, false)
  const POST_AUTHOR := Field("AuthorID", "author_id", KindInt, 1, false, false, true, false)
  const POST_KIND := Field("Kind", "kind", KindString, 0, false, false, true, false)
  const POST := Descriptor("Post", "posts", [POST_ID, POST_AUTHOR, POST_KIND], [[POST_AUTHOR, POST_KIND]], [])
  const POSTS := Relation("Posts", HasMany, "Post", [AUTHOR_ID], [POST_AUTHOR], None, "")
  const AUTHOR := Descriptor("Author", "authors", [AUTHOR_ID], [], [POSTS])
  const CATALOG: Catalog := map["Author" := AUTHOR, "Post" := POST]

  /** Authors with a pinned post; the key (AuthorID, Kind) allows each author one of them. */
  const PINNED := Predicate(OpEqual, "Kind", [Bound(Str("pinned"))], [])
  const HAS_PINNED := Predicate(OpHasRelation, "Posts", [], [PINNED])
  const META := Metadata(POST, ["ID"], ["id"], ["AuthorID"], ["author_id"], [["ID"], ["AuthorID", "Kind"]], true, None)
  const PLAN := RewritePlan(HAS_PINNED, POSTS, META, false)

  const OWNER: Row := map["id" := Int(1)]
  const OWNED: Row := map["id" := Int(2), "author_id" := Int(1), "kind" := Str("pinned")]
  const UNOWNED: Row := map["id" := Int(3), "kind" := Str("pinned")]
  const DB: Database := map["authors" := [OWNER], "posts" := [OWNED, UNOWNED]]

  function Asking(orderBy: seq<OrderTerm>, pagination: SelectClause.Pagination): Setting {
    Setting(CATALOG, AUTHOR, Selection([HAS_PINNED], orderBy, None, pagination, false), PLAN, DB)
  }

  lemma FieldsFound()
    ensures AUTHOR.FieldByGoName("ID") == Some(AUTHOR_ID) && AUTHOR.RelationByName("Posts") == Some(POSTS)
    ensures AUTHOR.PrimaryKeyFields() == [AUTHOR_ID] && SoftDeleteColumn(AUTHOR) == None
    ensures POST.FieldByGoName("Kind") == Some(POST_KIND) && POST.PrimaryKeyFields() == [POST_ID]
    ensures SoftDeleteColumn(POST) == None
  {
    assert AUTHOR.fields[1..] == [];
    assert POST.fields[1..] == [POST_AUTHOR, POST_KIND] && POST.fields[1..][1..] == [POST_KIND];
    assert [POST_KIND][1..] == [];
    assert FindField([POST_KIND], "Kind") == Some(POST_KIND);
    assert FindField([POST_AUTHOR, POST_KIND], "Kind") == Some(POST_KIND);
    assert PrimaryKeysOf([POST_KIND]) == [] && PrimaryKeysOf([POST_AUTHOR, POST_KIND]) == [];
    assert FindSoftDelete([POST_KIND]) == None && FindSoftDelete([POST_AUTHOR, POST_KIND]) == None;
  }

  lemma MetadataIs()
    ensures MetadataFor(CATALOG, AUTHOR, POSTS) == Some(META)
    ensures DeclaredKeys(POST) == [[POST_ID], [POST_AUTHOR, POST_KIND]] && DeclaredKeys(AUTHOR) == [[AUTHOR_ID]]
  {
    FieldsFound();
    assert GoNames([AUTHOR_ID]) == ["ID"] && Columns([AUTHOR_ID]) == ["id"];
    assert GoNames([POST_AUTHOR]) == ["AuthorID"] && Columns([POST_AUTHOR]) == ["author_id"];
    assert GoNames([POST_ID]) == ["ID"] && GoNames([POST_AUTHOR, POST_KIND]) == ["AuthorID", "Kind"];
    assert KeyNames(DeclaredKeys(POST)) == [["ID"], ["AuthorID", "Kind"]];
  }

  lemma ConditionsAccepted()
    ensures Accepted(PINNED, CATALOG, POST) && Accepted(HAS_PINNED, CATALOG, AUTHOR)
  {
    FieldsFound();
    assert NamedPlan(CATALOG, AUTHOR, "Posts").Some? && NamedPlan(CATALOG, AUTHOR, "Posts").value.target == POST;
    assert HAS_PINNED.children[0] == PINNED;
  }

  lemma OnePostPerAuthor()
    ensures UniquePerRoot(META, [PINNED]) && !CanFilterJunction(META, [PINNED])
  {
    assert Fixes(PINNED, "Kind") && PINNED in [PINNED];
    assert FixedByEqual([PINNED], "Kind");
    var key := ["AuthorID", "Kind"];
    assert META.uniqueKeys[1] == key && key in META.uniqueKeys;
    assert Covered(META, [PINNED], key);
  }

  lemma RewriteIsProven(orderBy: seq<OrderTerm>, pagination: SelectClause.Pagination)
    ensures var w := Asking(orderBy, pagination); Proven(w.catalog, w.d, w.s, w.plan) && w.ModelValid()
  {
    hide UniquePerRoot, CanFilterJunction, MetadataFor, Accepted;
    FieldsFound();
    MetadataIs();
    ConditionsAccepted();
    OnePostPerAuthor();
    assert POST.fields[1] == POST_AUTHOR && POST.fields[2] == POST_KIND && POST.fields[0] == POST_ID;
    assert AUTHOR.fields[0] == AUTHOR_ID;
  }

  lemma KeysAreDistinct()
    ensures KeysHold(AUTHOR, [OWNER]) && KeysHold(POST, [OWNED, UNOWNED])
  {
    DeclaredKeysHold(AUTHOR, [OWNER]);
    DeclaredKeysHold(POST, [OWNED, UNOWNED]);
    MetadataIs();
    assert Columns([AUTHOR_ID]) == ["id"] && Columns([POST_ID]) == ["id"];
    assert Columns([POST_AUTHOR, POST_KIND]) == ["author_id", "kind"];
    assert KeyOf(["id"], OWNED)[0] == Some(Int(2)) && KeyOf(["id"], UNOWNED)[0] == Some(Int(3));
    assert !Complete(["author_id", "kind"], UNOWNED) by { assert ["author_id", "kind"][0] !in UNOWNED; }
  }

  lemma AuthorsExist()
    ensures References([OWNED, UNOWNED], ["author_id"], [OWNER], ["id"])
  {
    assert Linked(OWNED, ["author_id"], OWNER, ["id"]) && OWNER in [OWNER];
    assert !Complete(["author_id"], UNOWNED) by { assert ["author_id"][0] !in UNOWNED; }
  }

  lemma DatabaseIsSound(orderBy: seq<OrderTerm>, pagination: SelectClause.Pagination)
    ensures Asking(orderBy, pagination).Valid()
  {
    hide Setting.ModelValid, KeysHold, References;
    RewriteIsProven(orderBy, pagination);
    FieldsFound();
    KeysAreDistinct();
    AuthorsExist();
    assert Rows(DB, "posts") == [OWNED, UNOWNED] && Rows(DB, "authors") == [OWNER];
    assert Columns([AUTHOR_ID]) == ["id"] && Complete(["id"], OWNER);
  }

  ghost predicate Example(w: Setting) {
    w.catalog == CATALOG && w.d == AUTHOR && w.plan == PLAN && w.db == DB
  }

  lemma PinnedMeans(row: Row)
    requires row == UNOWNED || row == OWNED
    ensures Accepted(PINNED, CATALOG, POST) && Meaning(PINNED, CATALOG, POST, row, DB) == True
  {
    hide AndMeaning, OrMeaning;
    FieldsFound();
    ConditionsAccepted();
  }

  lemma PinnedIs(row: Row)
    requires row == UNOWNED || row == OWNED
    ensures AllAccepted([PINNED], CATALOG, POST) && AndMeaning([PINNED], CATALOG, POST, row, DB) == True
  {
    hide Meaning, Accepted;
    PinnedMeans(row);
    assert [PINNED][..0] == [];
    assert AndMeaning([], CATALOG, POST, row, DB) == True;
  }

  lemma BothKept(w: Setting)
    requires Example(w)
    ensures Shaped(w.Meta()) && AllAccepted(w.Children(), w.catalog, w.Target())
    ensures w.Kept(UNOWNED) && w.Kept(OWNED)
  {
    hide AndMeaning, Accepted;
    FieldsFound();
    PinnedIs(UNOWNED);
    PinnedIs(OWNED);
  }

  /** The row without an author counts as an association row, and sorts first. */
  lemma UnownedCounts(w: Setting)
    requires Example(w)
    ensures Shaped(w.Meta()) && AllAccepted(w.Children(), w.catalog, w.Target())
    ensures w.Scene().assocKey == ["author_id"] && UNOWNED in w.Scene().assoc && OWNED in w.Scene().assoc
    ensures !w.Scene().AllComplete() && !w.Scene().NullKeysLast([false])
  {
    BothKept(w);
    hide Setting.Kept, Accepted, AllAccepted;
    var posts := [OWNED, UNOWNED];
    assert Rows(DB, "posts") == posts && posts[..1] == [OWNED] && [OWNED][..0] == [];
    assert Filter([OWNED], row => w.Kept(row)) == [OWNED];
    assert w.Scene().assoc == posts;
    UnownedFirst(w.Scene());
  }

  lemma UnownedFirst(s: Scene)
    requires s.assocKey == ["author_id"] && UNOWNED in s.assoc && OWNED in s.assoc
    ensures !s.AllComplete() && !s.NullKeysLast([false])
  {
    assert !Complete(["author_id"], UNOWNED) by { assert ["author_id"][0] !in UNOWNED; }
    assert Complete(["author_id"], OWNED);
    assert KeyOf(["author_id"], UNOWNED)[0] == None && KeyOf(["author_id"], OWNED)[0] == Some(Int(1));
    assert Before(s.AssocOrder([false]), UNOWNED, OWNED);
  }

  /** The first page of one author by ascending key: the TopN rewrite is chosen, every hypothesis holds except
      the one on NULL keys, and some page differs from what EXISTS answers. */
  lemma UnownedPostHidesAuthor()
    ensures var w := Asking([OrderTerm("ID", Ascending)], SelectClause.Pagination.Pagination(Some(1), None));
      TopNSetting(w) && !NullKeysComeLast(w)
  {
    hide Setting.Valid, Setting.Scene, Proven, Accepted, Scene.NullKeysLast;
    var w := Asking([OrderTerm("ID", Ascending)], SelectClause.Pagination.Pagination(Some(1), None));
    DatabaseIsSound(w.s.orderBy, w.s.pagination);
    RewriteIsProven(w.s.orderBy, w.s.pagination);
    UnownedCounts(w);
    TopNReady(w);
    assert Directions(w.s.orderBy) == [false];
  }

  /** Counting the association rows counts the post without an author. */
  lemma UnownedPostIsCounted()
    ensures var w := Asking([], SelectClause.Pagination.Pagination(None, None));
      CountAllowed(w.catalog, w.d, w.s, false, w.plan) && PlanReady(w.catalog, w.plan) && w.ModelValid() &&
      |CountQuery(w.catalog, w.plan).Selected(w.db)| != |ExistsRows(w)|
  {
    hide Setting.Valid, Setting.ModelValid, Setting.Scene, Proven, Accepted, PlanReady;
    hide AssociationQuery.Selected, CountQuery, ExistsRows;
    var w := Asking([], SelectClause.Pagination.Pagination(None, None));
    DatabaseIsSound(w.s.orderBy, w.s.pagination);
    RewriteIsProven(w.s.orderBy, w.s.pagination);
    UnownedCounts(w);
    assert RootNameFree("posts");
    CountIffWholeKeys(w);
  }
}
