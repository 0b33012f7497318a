/** The list queries of `app/recipe/views.py`, as functions over in-memory
    tables.

    A query set is a sequence of rows. A filter across a many-to-many
    relation is a join, so it yields one copy of a row per matching link;
    `order_by` is `SortBy` and `distinct` is `Dedup`, applied in the order the
    views chain them. The request is the caller's user id and the query
    parameters, a map from parameter name to (last) value. */
module RecipeViews {
  import opened Common
  import opened Text
  import opened IntLiteral
  import opened Ordering
  import opened CoreModels

  /** The tables the views read. */
  datatype Db = Db(tags: seq<Attr>, ingredients: seq<Attr>, recipes: seq<Recipe>)

  /** Which of the two attribute tables a `BaseAttrRecipeViewSet` lists. */
  datatype AttrKind = TagKind | IngredientKind

  function AttrTable(db: Db, kind: AttrKind): seq<Attr> {
    match kind
    case TagKind => db.tags
    case IngredientKind => db.ingredients
  }

  /** The ids a recipe links to in the relation of `kind`. */
  function Links(r: Recipe, kind: AttrKind): set<nat> {
    match kind
    case TagKind => r.tags
    case IngredientKind => r.ingredients
  }

  /** `n` copies of `x`. */
  function Repeat<T(!new)>(x: T, n: nat): (r: seq<T>)
    ensures |r| == n
    ensures forall y :: y in r <==> n > 0 && y == x
  {
    if n == 0 then [] else [x] + Repeat(x, n - 1)
  }

  // ---------------------------------------------------------------------
  // Query parameters
  // ---------------------------------------------------------------------

  /** `[parse(t) for t in tokens]`: raises at the first token that `parse`
      refuses. */
  function ParseAll(tokens: seq<string>, parse: string -> Option<int>): (r: Result<seq<int>>)
    ensures r.Ok? <==> forall i :: 0 <= i < |tokens| ==> parse(tokens[i]).Some?
    ensures r.Ok? ==> |r.value| == |tokens|
    ensures r.Ok? ==> forall i :: 0 <= i < |tokens| ==> parse(tokens[i]) == Some(r.value[i])
    ensures r.Err? ==> exists i :: 0 <= i < |tokens| && r.error == InvalidLiteral(tokens[i])
                                   && parse(tokens[i]).None?
                                   && forall j :: 0 <= j < i ==> parse(tokens[j]).Some?
  {
    if tokens == [] then Ok([])
    else
      match parse(tokens[0])
      case None => Err(InvalidLiteral(tokens[0]))
      case Some(n) =>
        var tail := tokens[1..];
        var rest := ParseAll(tail, parse);
        assert forall i :: 1 <= i < |tokens| ==> tokens[i] == tail[i - 1];
        if rest.Err? then
          var k :| 0 <= k < |tail| && rest.error == InvalidLiteral(tail[k])
                   && parse(tail[k]).None?
                   && forall j :: 0 <= j < k ==> parse(tail[j]).Some?;
          assert tokens[k + 1] == tail[k];
          Err(rest.error)
        else
          Ok([n] + rest.value)
  }

  /** `_params_to_ints(qs)`: split on commas and convert every piece with
      `int()`. */
  function ParamsToInts(qs: string): Result<seq<int>>
  {
    ParseAll(Split(qs, ','), ParseInt)
  }

  /** The decimal forms of `xs`. */
  function Shows(xs: seq<int>): (r: seq<string>)
    ensures |r| == |xs|
    ensures forall i :: 0 <= i < |xs| ==> r[i] == Show(xs[i])
  {
    if xs == [] then [] else [Show(xs[0])] + Shows(xs[1..])
  }

  /** A decimal literal has no comma in it. */
  lemma ShowHasNoComma(n: int)
    ensures ',' !in Show(n)
  {
    var digits := ShowNat(if n < 0 then -n else n);
    assert forall i :: 0 <= i < |digits| ==> IsDigit(digits[i]);
    if n < 0 {
      assert Show(n) == "-" + digits;
      assert forall i :: 1 <= i < |Show(n)| ==> Show(n)[i] == digits[i - 1];
    }
  }

  /** When every token parses, the result lists the parsed values in order. */
  lemma ParseAllValues(tokens: seq<string>, parse: string -> Option<int>, xs: seq<int>)
    requires |xs| == |tokens|
    requires forall i :: 0 <= i < |tokens| ==> parse(tokens[i]) == Some(xs[i])
    ensures ParseAll(tokens, parse) == Ok(xs)
  {
    assert forall i :: 0 <= i < |tokens| ==> parse(tokens[i]).Some?;
    var r := ParseAll(tokens, parse);
    assert r.Ok?;
    assert forall i :: 0 <= i < |xs| ==> r.value[i] == xs[i];
    assert r.value == xs;
  }

  /** Converting the literals of integers gives the integers. */
  lemma ParseAllShows(xs: seq<int>)
    ensures ParseAll(Shows(xs), ParseInt) == Ok(xs)
  {
    var tokens := Shows(xs);
    forall i | 0 <= i < |xs|
      ensures ParseInt(tokens[i]) == Some(xs[i])
    {
      ParseShow(xs[i]);
    }
    ParseAllValues(tokens, ParseInt, xs);
  }

  /** `_params_to_ints` inverts writing a nonempty list of integers as
      comma-separated decimal literals: one int per token, in order. */
  lemma ParamsToIntsRoundTrip(xs: seq<int>)
    requires |xs| >= 1
    ensures ParamsToInts(Join(Shows(xs), ',')) == Ok(xs)
  {
    var parts := Shows(xs);
    forall i | 0 <= i < |parts|
      ensures ',' !in parts[i]
    {
      ShowHasNoComma(xs[i]);
    }
    SplitJoin(parts, ',');
    ParseAllShows(xs);
  }

  /** Splitting text around one separator splits each side. */
  lemma SplitAround(a: string, b: string, sep: char)
    ensures Split(a + [sep] + b, sep) == Split(a, sep) + Split(b, sep)
  {
    var pieces := Split(a, sep) + Split(b, sep);
    JoinAppend(Split(a, sep), Split(b, sep), sep);
    SplitJoin(pieces, sep);
  }

  /** A piece of white space (or nothing) between commas makes the whole
      parameter invalid: `"1,,2"` and `"1, ,2"` are rejected. */
  lemma ParamsToIntsBlankPiece(a: string, blank: string, b: string)
    requires forall i :: 0 <= i < |blank| ==> IsSpace(blank[i])
    requires ',' !in blank
    ensures ParamsToInts(a + "," + blank + "," + b).Err?
  {
    var rest := blank + "," + b;
    assert a + "," + blank + "," + b == a + [','] + rest;
    assert rest == blank + [','] + b;
    SplitAround(a, rest, ',');
    SplitAround(blank, b, ',');
    SplitAppend(blank, [], ',');
    assert blank + [] == blank;
    assert Split([], ',') == [[]];
    var pieces := Split(a + "," + blank + "," + b, ',');
    var k := |Split(a, ',')|;
    assert pieces[k] == blank;
    ParseBlank(blank);
  }

  /** `bool(int(query_params.get('assigned_only', 0)))`: absent means no
      restriction; an integer literal means "restrict" unless it is zero. */
  function AssignedOnly(params: map<string, string>): Result<bool>
  {
    if "assigned_only" !in params then Ok(false)
    else
      match ParseInt(params["assigned_only"])
      case None => Err(InvalidLiteral(params["assigned_only"]))
      case Some(n) => Ok(n != 0)
  }

  /** Absent means false; the literal of any integer means whether it is
      nonzero (so "0" means false and "1" true); white space alone is
      rejected. */
  lemma AssignedOnlyValues(params: map<string, string>, n: int, blank: string)
    requires forall i :: 0 <= i < |blank| ==> IsSpace(blank[i])
    ensures AssignedOnly(map[]) == Ok(false)
    ensures AssignedOnly(params["assigned_only" := Show(n)]) == Ok(n != 0)
    ensures AssignedOnly(params["assigned_only" := blank]).Err?
  {
    ParseShow(n);
    ParseBlank(blank);
  }

  // ---------------------------------------------------------------------
  // Tags and ingredients: BaseAttrRecipeViewSet.get_queryset
  // ---------------------------------------------------------------------

  /** Some recipe (of any user) links to the attribute with this id. */
  predicate IsAssigned(recipes: seq<Recipe>, kind: AttrKind, id: nat) {
    exists r :: r in recipes && id in Links(r, kind)
  }

  /** The number of recipes that link to `id`. */
  function LinkCount(recipes: seq<Recipe>, kind: AttrKind, id: nat): (n: nat)
    ensures n > 0 <==> IsAssigned(recipes, kind, id)
  {
    if recipes == [] then 0
    else
      assert forall r :: r in recipes <==> r == recipes[0] || r in recipes[1..];
      (if id in Links(recipes[0], kind) then 1 else 0) + LinkCount(recipes[1..], kind, id)
  }

  /** `filter(recipe__isnull=False)`: the inner join with the recipe link
      table, one copy of a row per recipe that links to it. */
  function AssignedJoin(rows: seq<Attr>, recipes: seq<Recipe>, kind: AttrKind): (r: seq<Attr>)
    ensures forall a :: a in r <==> a in rows && IsAssigned(recipes, kind, a.id)
  {
    if rows == [] then []
    else
      assert forall a :: a in rows <==> a == rows[0] || a in rows[1..];
      Repeat(rows[0], LinkCount(recipes, kind, rows[0].id)) + AssignedJoin(rows[1..], recipes, kind)
  }

  /** `order_by('-name')`: a row with a larger name first. */
  predicate NameDescending(a: Attr, b: Attr) {
    NameLe(b.name, a.name)
  }

  lemma NameDescendingIsTotalPreorder()
    ensures TotalPreorder(NameDescending)
  {
    forall a: Attr, b: Attr
      ensures NameDescending(a, b) || NameDescending(b, a)
    {
      NameLeTotal(a.name, b.name);
    }
    forall a: Attr, b: Attr, c: Attr | NameDescending(a, b) && NameDescending(b, c)
      ensures NameDescending(a, c)
    {
      NameLeTransitive(c.name, b.name, a.name);
    }
  }

  function OwnedBy(user: nat): Attr -> bool {
    (a: Attr) => a.owner == user
  }

  /** `get_queryset()` of the tag and ingredient view sets. */
  function ListAttrs(db: Db, kind: AttrKind, user: nat, params: map<string, string>): Result<seq<Attr>>
  {
    var assignedOnly :- AssignedOnly(params);
    var rows := AttrTable(db, kind);
    var joined := if assignedOnly then AssignedJoin(rows, db.recipes, kind) else rows;
    Ok(Dedup(SortBy(Filter(joined, OwnedBy(user)), NameDescending)))
  }

  /** The listing fails exactly when `assigned_only` is not an integer;
      otherwise it holds exactly the caller's rows, restricted to those some
      recipe links to when `assigned_only` is nonzero. */
  lemma ListAttrsMembers(db: Db, kind: AttrKind, user: nat, params: map<string, string>, a: Attr)
    ensures ListAttrs(db, kind, user, params).Ok? <==> AssignedOnly(params).Ok?
    ensures ListAttrs(db, kind, user, params).Ok? ==>
      (a in ListAttrs(db, kind, user, params).value <==>
         && a in AttrTable(db, kind)
         && a.owner == user
         && (AssignedOnly(params).value ==> IsAssigned(db.recipes, kind, a.id)))
  {
    var assignedOnly := AssignedOnly(params);
    if assignedOnly.Ok? {
      var rows := AttrTable(db, kind);
      var joined := if assignedOnly.value then AssignedJoin(rows, db.recipes, kind) else rows;
      var owned := Filter(joined, OwnedBy(user));
      var sorted := SortBy(owned, NameDescending);
      assert ListAttrs(db, kind, user, params) == Ok(Dedup(sorted));
      assert a in sorted <==> a in multiset(owned);
      assert a in owned <==> a in joined && a.owner == user;
    }
  }

  /** The listing is ordered by name, descending, and lists no row twice,
      however many recipes link to it. */
  lemma ListAttrsOrdered(db: Db, kind: AttrKind, user: nat, params: map<string, string>)
    requires ListAttrs(db, kind, user, params).Ok?
    ensures SortedBy(ListAttrs(db, kind, user, params).value, NameDescending)
    ensures NoDuplicates(ListAttrs(db, kind, user, params).value)
  {
    var assignedOnly := AssignedOnly(params).value;
    var rows := AttrTable(db, kind);
    var joined := if assignedOnly then AssignedJoin(rows, db.recipes, kind) else rows;
    var sorted := SortBy(Filter(joined, OwnedBy(user)), NameDescending);
    NameDescendingIsTotalPreorder();
    SortBySorted(Filter(joined, OwnedBy(user)), NameDescending);
    DedupSorted(sorted, NameDescending);
  }

  /** No two rows of the table share a key: `key` is its primary key. */
  predicate UniqueKeys<T>(rows: seq<T>, key: T -> nat) {
    forall i, j :: 0 <= i < |rows| && 0 <= j < |rows| && key(rows[i]) == key(rows[j]) ==> i == j
  }

  function AttrId(row: Attr): nat {
    row.id
  }

  /** With a primary key on the table, the listing holds no id twice. */
  lemma ListAttrsUniqueIds(db: Db, kind: AttrKind, user: nat, params: map<string, string>)
    requires UniqueKeys(AttrTable(db, kind), AttrId)
    requires ListAttrs(db, kind, user, params).Ok?
    ensures var r := ListAttrs(db, kind, user, params).value;
            forall i, j :: 0 <= i < j < |r| ==> r[i].id != r[j].id
  {
    var r := ListAttrs(db, kind, user, params).value;
    var rows := AttrTable(db, kind);
    ListAttrsOrdered(db, kind, user, params);
    forall i, j | 0 <= i < j < |r|
      ensures r[i].id != r[j].id
    {
      ListAttrsMembers(db, kind, user, params, r[i]);
      ListAttrsMembers(db, kind, user, params, r[j]);
      var p :| 0 <= p < |rows| && rows[p] == r[i];
      var q :| 0 <= q < |rows| && rows[q] == r[j];
    }
  }

  /** Without `assigned_only` the listing is a rearrangement of the caller's
      rows: each of them exactly once when the table holds no row twice. */
  lemma ListAttrsAllOwned(db: Db, kind: AttrKind, user: nat, params: map<string, string>)
    requires AssignedOnly(params) == Ok(false)
    requires NoDuplicates(AttrTable(db, kind))
    ensures multiset(ListAttrs(db, kind, user, params).value)
         == multiset(Filter(AttrTable(db, kind), OwnedBy(user)))
  {
    var owned := Filter(AttrTable(db, kind), OwnedBy(user));
    FilterNoDuplicates(AttrTable(db, kind), OwnedBy(user));
    SortByNoDuplicates(owned, NameDescending);
    DedupIdentity(SortBy(owned, NameDescending));
  }

  // ---------------------------------------------------------------------
  // Recipes: RecipeViewSet.get_queryset
  // ---------------------------------------------------------------------

  /** The ids a query parameter lists: `None` when it is absent or empty,
      which means no filter. */
  function IdFilter(params: map<string, string>, key: string): Result<Option<seq<int>>>
  {
    if key !in params || params[key] == [] then Ok(None)
    else
      var ids :- ParamsToInts(params[key]);
      Ok(Some(ids))
  }

  /** The recipe links to one of `ids` in the relation of `kind`. */
  predicate Matches(r: Recipe, kind: AttrKind, ids: seq<int>) {
    exists id :: id in Links(r, kind) && id in ids
  }

  /** The links of `r` that `ids` lists. */
  function MatchingLinks(r: Recipe, kind: AttrKind, ids: seq<int>): (m: set<nat>)
    ensures |m| > 0 <==> Matches(r, kind, ids)
  {
    var m := set id | id in Links(r, kind) && id in ids;
    if Matches(r, kind, ids) then
      var id :| id in Links(r, kind) && id in ids;
      assert id in m;
      m
    else
      assert m == {};
      m
  }

  /** `filter(<relation>__id__in=ids)`: the join with the link table, one copy
      of a recipe per link to a listed id. */
  function JoinOn(recipes: seq<Recipe>, kind: AttrKind, ids: seq<int>): (r: seq<Recipe>)
    ensures forall x :: x in r <==> x in recipes && Matches(x, kind, ids)
  {
    if recipes == [] then []
    else
      assert forall x :: x in recipes <==> x == recipes[0] || x in recipes[1..];
      Repeat(recipes[0], |MatchingLinks(recipes[0], kind, ids)|) + JoinOn(recipes[1..], kind, ids)
  }

  /** `order_by('-id')`. */
  predicate IdDescending(a: Recipe, b: Recipe) {
    a.id >= b.id
  }

  function RecipeOwnedBy(user: nat): Recipe -> bool {
    (r: Recipe) => r.owner == user
  }

  /** `get_queryset()` of the recipe view set. */
  function ListRecipes(db: Db, user: nat, params: map<string, string>): Result<seq<Recipe>>
  {
    var tagIds :- IdFilter(params, "tags");
    var ingredientIds :- IdFilter(params, "ingredients");
    var byTags := if tagIds.Some? then JoinOn(db.recipes, TagKind, tagIds.value) else db.recipes;
    var byBoth := if ingredientIds.Some? then JoinOn(byTags, IngredientKind, ingredientIds.value) else byTags;
    Ok(Dedup(SortBy(Filter(byBoth, RecipeOwnedBy(user)), IdDescending)))
  }

  /** The listing fails exactly when a nonempty `tags` or `ingredients`
      parameter is not a comma-separated list of integers. Otherwise it holds
      exactly the caller's recipes that link to a listed tag (when tags are
      given) and to a listed ingredient (when ingredients are given). */
  lemma ListRecipesMembers(db: Db, user: nat, params: map<string, string>, x: Recipe)
    ensures ListRecipes(db, user, params).Ok? <==>
              IdFilter(params, "tags").Ok? && IdFilter(params, "ingredients").Ok?
    ensures ListRecipes(db, user, params).Ok? ==>
      var tagIds := IdFilter(params, "tags").value;
      var ingredientIds := IdFilter(params, "ingredients").value;
      (x in ListRecipes(db, user, params).value <==>
         && x in db.recipes
         && x.owner == user
         && (tagIds.Some? ==> Matches(x, TagKind, tagIds.value))
         && (ingredientIds.Some? ==> Matches(x, IngredientKind, ingredientIds.value)))
  {
    var tagIds := IdFilter(params, "tags");
    var ingredientIds := IdFilter(params, "ingredients");
    if tagIds.Ok? && ingredientIds.Ok? {
      var byTags := if tagIds.value.Some? then JoinOn(db.recipes, TagKind, tagIds.value.value) else db.recipes;
      var byBoth := if ingredientIds.value.Some? then JoinOn(byTags, IngredientKind, ingredientIds.value.value) else byTags;
      var owned := Filter(byBoth, RecipeOwnedBy(user));
      var sorted := SortBy(owned, IdDescending);
      assert ListRecipes(db, user, params) == Ok(Dedup(sorted));
      assert x in sorted <==> x in multiset(owned);
      assert x in owned <==> x in byBoth && x.owner == user;
    }
  }

  function RecipeId(row: Recipe): nat {
    row.id
  }

  lemma IdDescendingIsTotalPreorder()
    ensures TotalPreorder(IdDescending)
  {
  }

  /** The listing holds no recipe twice, however many of its tags and
      ingredients are listed, and is ordered by id, descending. */
  lemma ListRecipesOrdered(db: Db, user: nat, params: map<string, string>)
    requires ListRecipes(db, user, params).Ok?
    ensures NoDuplicates(ListRecipes(db, user, params).value)
    ensures SortedBy(ListRecipes(db, user, params).value, IdDescending)
  {
    var tagIds := IdFilter(params, "tags").value;
    var ingredientIds := IdFilter(params, "ingredients").value;
    var byTags := if tagIds.Some? then JoinOn(db.recipes, TagKind, tagIds.value) else db.recipes;
    var byBoth := if ingredientIds.Some? then JoinOn(byTags, IngredientKind, ingredientIds.value) else byTags;
    var owned := Filter(byBoth, RecipeOwnedBy(user));
    var sorted := SortBy(owned, IdDescending);
    assert ListRecipes(db, user, params) == Ok(Dedup(sorted));
    IdDescendingIsTotalPreorder();
    SortBySorted(owned, IdDescending);
    DedupSorted(sorted, IdDescending);
  }

  /** With a primary key on the recipe table the ids of the listing strictly
      decrease. */
  lemma ListRecipesStrictlyDescending(db: Db, user: nat, params: map<string, string>)
    requires UniqueKeys(db.recipes, RecipeId)
    requires ListRecipes(db, user, params).Ok?
    ensures var r := ListRecipes(db, user, params).value;
            forall i, j :: 0 <= i < j < |r| ==> r[i].id > r[j].id
  {
    var r := ListRecipes(db, user, params).value;
    ListRecipesOrdered(db, user, params);
    forall i, j | 0 <= i < j < |r|
      ensures r[i].id > r[j].id
    {
      assert IdDescending(r[i], r[j]);
      ListRecipesMembers(db, user, params, r[i]);
      ListRecipesMembers(db, user, params, r[j]);
      var p :| 0 <= p < |db.recipes| && db.recipes[p] == r[i];
      var q :| 0 <= q < |db.recipes| && db.recipes[q] == r[j];
      assert r[i] != r[j];
    }
  }
}
