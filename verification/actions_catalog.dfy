/** The static catalog of bonus actions and its lookups
    (src/core/actionsCatalog.js). */
module ActionsCatalog {
  import opened Base

  /** The four category names of the catalog. */
  datatype Category = Training | Movement | Study | Reading {
    /** The name the source uses as the category string. */
    function Name(): string {
      match this
      case Training => "Entrenamiento"
      case Movement => "Movimiento"
      case Study => "Estudio"
      case Reading => "Lectura"
    }
  }

  datatype CatalogAction = CatalogAction(key: string, caption: string, xp: int, category: Category)

  /** One entry of the `Map` that `actionsByCategory` builds. */
  datatype CategoryGroup = CategoryGroup(category: Category, actions: seq<CatalogAction>)

  const Actions: seq<CatalogAction> := [
    CatalogAction("entreno_facil", "Entrenar facil", 10, Training),
    CatalogAction("entreno_medio", "Entrenar medio", 18, Training),
    CatalogAction("entreno_dificil", "Entrenar dificil", 28, Training),
    CatalogAction("caminar_30m", "Caminar 30 min", 6, Movement),
    CatalogAction("caminar_1h", "Caminar 1 hora", 10, Movement),
    CatalogAction("estudio_30m", "Estudiar 30 min", 8, Study),
    CatalogAction("estudio_1h", "Estudiar 1 hora", 15, Study),
    CatalogAction("estudio_2h", "Estudiar 2 horas", 25, Study),
    CatalogAction("leer_30m", "Leer 30 min", 6, Reading),
    CatalogAction("leer_1h", "Leer 1 hora", 12, Reading),
    CatalogAction("leer_2h", "Leer 2 horas", 20, Reading)
  ]

  /** The four categories, in catalog order. */
  const Categories: seq<Category> := [Training, Movement, Study, Reading]

  /** Catalog keys are pairwise distinct and every action is worth positive XP. */
  lemma CatalogWellFormed()
    ensures forall i, j :: 0 <= i < j < |Actions| ==> Actions[i].key != Actions[j].key
    ensures forall i :: 0 <= i < |Actions| ==> Actions[i].xp > 0 && Actions[i].category in Categories
  {
  }

  /** `acts.find(a => a.key === key) || null`: the first entry with that key. */
  function FindByKey(acts: seq<CatalogAction>, key: string): (r: Option<CatalogAction>)
    ensures r.None? <==> forall i :: 0 <= i < |acts| ==> acts[i].key != key
    ensures r.Some? ==> exists i :: 0 <= i < |acts| && acts[i] == r.value
                               && r.value.key == key && forall j :: 0 <= j < i ==> acts[j].key != key
    decreases |acts|
  {
    if acts == [] then None
    else if acts[0].key == key then
      assert acts[0] == acts[0];
      Some(acts[0])
    else
      var r := FindByKey(acts[1..], key);
      if r.Some? then
        var i :| 0 <= i < |acts[1..]| && acts[1..][i] == r.value
          && r.value.key == key && forall j :: 0 <= j < i ==> acts[1..][j].key != key;
        assert acts[i + 1] == r.value;
        r
      else r
  }

  /** `getActionByKey(key)`. */
  function GetActionByKey(key: string): (r: Option<CatalogAction>)
    ensures r.None? <==> forall i :: 0 <= i < |Actions| ==> Actions[i].key != key
    ensures r.Some? ==> r.value in Actions && r.value.key == key
  {
    FindByKey(Actions, key)
  }

  /** `getCategoryForAction(key)`: null exactly when the key is unknown. */
  function GetCategoryForAction(key: string): (r: Option<Category>)
    ensures r.None? <==> GetActionByKey(key).None?
    ensures r.Some? ==> r.value == GetActionByKey(key).value.category && r.value in Categories
  {
    var a := GetActionByKey(key);
    if a.Some? then
      CatalogWellFormed();
      Some(a.value.category)
    else None
  }

  /** `acts.filter(a => a.category === category)`. */
  function FilterCategory(acts: seq<CatalogAction>, category: Category): (r: seq<CatalogAction>)
    ensures |r| <= |acts|
    decreases |acts|
  {
    if acts == [] then []
    else
      var last := acts[|acts| - 1];
      var prefix := FilterCategory(acts[..|acts| - 1], category);
      if last.category == category then prefix + [last] else prefix
  }

  /** The filter keeps exactly the entries of the category. */
  lemma {:induction false} FilterCategoryMembers(acts: seq<CatalogAction>, category: Category)
    ensures forall a :: a in FilterCategory(acts, category) <==> a in acts && a.category == category
    decreases |acts|
  {
    if acts != [] {
      var init := acts[..|acts| - 1];
      FilterCategoryMembers(init, category);
      assert acts == init + [acts[|acts| - 1]];
    }
  }

  /** `actionsForCategory(category)`: the catalog entries of one category, in catalog order. */
  function ActionsForCategory(category: Category): (r: seq<CatalogAction>)
    ensures forall a :: a in r <==> a in Actions && a.category == category
  {
    FilterCategoryMembers(Actions, category);
    FilterCategory(Actions, category)
  }

  /** The distinct categories of `acts`, in order of first appearance. */
  function CategoryOrder(acts: seq<CatalogAction>): (r: seq<Category>)
    ensures |r| <= |acts|
    decreases |acts|
  {
    if acts == [] then []
    else
      var last := acts[|acts| - 1];
      var prefix := CategoryOrder(acts[..|acts| - 1]);
      if last.category in prefix then prefix else prefix + [last.category]
  }

  predicate Distinct(r: seq<Category>) {
    forall i, j :: 0 <= i < j < |r| ==> r[i] != r[j]
  }

  /** No category is listed twice. */
  lemma {:induction false} CategoryOrderDistinct(acts: seq<CatalogAction>)
    ensures Distinct(CategoryOrder(acts))
    decreases |acts|
  {
    if acts != [] {
      var init, last := acts[..|acts| - 1], acts[|acts| - 1];
      var p := CategoryOrder(init);
      CategoryOrderDistinct(init);
      if last.category !in p {
        var r := p + [last.category];
        forall i, j | 0 <= i < j < |r| ensures r[i] != r[j] {
          assert r[i] == p[i];
          if j == |p| {
            assert p[i] in p;
          } else {
            assert r[j] == p[j];
          }
        }
      }
    }
  }

  /** The categories listed are exactly those that occur. */
  lemma {:induction false} CategoryOrderMembers(acts: seq<CatalogAction>)
    ensures forall c :: c in CategoryOrder(acts) <==> exists i :: 0 <= i < |acts| && acts[i].category == c
    decreases |acts|
  {
    if acts != [] {
      var init, last := acts[..|acts| - 1], acts[|acts| - 1];
      CategoryOrderMembers(init);
      forall c | c in CategoryOrder(acts) ensures exists i :: 0 <= i < |acts| && acts[i].category == c {
        if c == last.category {
          assert acts[|acts| - 1].category == c;
        } else {
          assert c in CategoryOrder(init);
          var i :| 0 <= i < |init| && init[i].category == c;
          assert acts[i].category == c;
        }
      }
      forall c | exists i :: 0 <= i < |acts| && acts[i].category == c ensures c in CategoryOrder(acts) {
        var i :| 0 <= i < |acts| && acts[i].category == c;
        if i < |init| {
          assert init[i].category == c;
        }
      }
    }
  }

  function CategoriesOf(groups: seq<CategoryGroup>): seq<Category> {
    seq(|groups|, i requires 0 <= i < |groups| => groups[i].category)
  }

  function Flatten(groups: seq<CategoryGroup>): seq<CatalogAction> {
    if groups == [] then [] else groups[0].actions + Flatten(groups[1..])
  }

  lemma {:induction false} FilterAppend(a: seq<CatalogAction>, b: seq<CatalogAction>, c: Category)
    ensures FilterCategory(a + b, c) == FilterCategory(a, c) + FilterCategory(b, c)
    decreases |b|
  {
    if b != [] {
      var b' := b[..|b| - 1];
      assert (a + b)[..|a + b| - 1] == a + b';
      FilterAppend(a, b', c);
    } else {
      assert a + b == a;
    }
  }

  /** Every entry of `b` has category `c`. */
  predicate AllOf(b: seq<CatalogAction>, c: Category) {
    forall i :: 0 <= i < |b| ==> b[i].category == c
  }

  lemma {:induction false} FilterBlock(b: seq<CatalogAction>, c: Category, inBlock: bool)
    requires forall i :: 0 <= i < |b| ==> (b[i].category == c) == inBlock
    ensures FilterCategory(b, c) == if inBlock then b else []
    decreases |b|
  {
    if b != [] {
      var b', last := b[..|b| - 1], b[|b| - 1];
      FilterBlock(b', c, inBlock);
      if inBlock {
        assert b' + [last] == b;
      }
    }
  }

  lemma {:induction false} CategoryOrderBlock(a: seq<CatalogAction>, b: seq<CatalogAction>, c: Category)
    requires b != [] && AllOf(b, c)
    requires c !in CategoryOrder(a)
    ensures CategoryOrder(a + b) == CategoryOrder(a) + [c]
    decreases |b|
  {
    var b' := b[..|b| - 1];
    assert (a + b)[..|a + b| - 1] == a + b';
    assert (a + b)[|a + b| - 1] == b[|b| - 1];
    if b' != [] {
      CategoryOrderBlock(a, b', c);
    } else {
      assert a + b' == a;
    }
  }

  /** The catalog is four blocks, one per category, in the order of `Categories`. */
  lemma CatalogBlocks()
    ensures Actions == Actions[0..3] + Actions[3..5] + Actions[5..8] + Actions[8..11]
    ensures AllOf(Actions[0..3], Training) && AllOf(Actions[3..5], Movement)
    ensures AllOf(Actions[5..8], Study) && AllOf(Actions[8..11], Reading)
  {
  }

  /** Four non-empty single-category blocks with pairwise distinct categories. */
  predicate Blocks(b0: seq<CatalogAction>, b1: seq<CatalogAction>, b2: seq<CatalogAction>, b3: seq<CatalogAction>,
                   c0: Category, c1: Category, c2: Category, c3: Category) {
    && b0 != [] && b1 != [] && b2 != [] && b3 != []
    && AllOf(b0, c0) && AllOf(b1, c1) && AllOf(b2, c2) && AllOf(b3, c3)
    && c0 != c1 && c0 != c2 && c0 != c3 && c1 != c2 && c1 != c3 && c2 != c3
  }

  /** Filtering a block of category `cb` onto a filtered prefix. */
  lemma FilterExtend(a: seq<CatalogAction>, b: seq<CatalogAction>, cb: Category, c: Category, prior: seq<CatalogAction>)
    requires AllOf(b, cb) && FilterCategory(a, c) == prior
    ensures FilterCategory(a + b, c) == if c == cb then prior + b else prior
  {
    FilterBlock(b, c, c == cb);
    FilterAppend(a, b, c);
    if c != cb {
      assert prior + [] == prior;
    }
  }

  lemma FilterBlocks(b0: seq<CatalogAction>, b1: seq<CatalogAction>, b2: seq<CatalogAction>, b3: seq<CatalogAction>,
                     c0: Category, c1: Category, c2: Category, c3: Category, c: Category)
    requires Blocks(b0, b1, b2, b3, c0, c1, c2, c3)
    ensures FilterCategory(b0 + b1 + b2 + b3, c) ==
      if c == c0 then b0 else if c == c1 then b1 else if c == c2 then b2 else if c == c3 then b3 else []
  {
    var e: seq<CatalogAction> := [];
    var a1 := b0 + b1;
    var a2 := a1 + b2;
    var f0 := if c == c0 then b0 else e;
    FilterBlock(b0, c, c == c0);
    var f1 := if c == c1 then f0 + b1 else f0;
    FilterExtend(b0, b1, c1, c, f0);
    var f2 := if c == c2 then f1 + b2 else f1;
    FilterExtend(a1, b2, c2, c, f1);
    FilterExtend(a2, b3, c3, c, f2);
    assert e + b1 == b1 && e + b2 == b2 && e + b3 == b3;
  }

  /** A single-category block lists just that category. */
  lemma OrderOfBlock(b: seq<CatalogAction>, c: Category)
    requires b != [] && AllOf(b, c)
    ensures CategoryOrder(b) == [c]
  {
    var e: seq<CatalogAction> := [];
    assert e + b == b;
    CategoryOrderBlock(e, b, c);
  }

  /** A block of a new category adds that category at the end. */
  lemma OrderExtend(a: seq<CatalogAction>, b: seq<CatalogAction>, c: Category, prior: seq<Category>)
    requires b != [] && AllOf(b, c)
    requires CategoryOrder(a) == prior && c !in prior
    ensures CategoryOrder(a + b) == prior + [c]
  {
    CategoryOrderBlock(a, b, c);
  }

  lemma CategoryOrderBlocks(b0: seq<CatalogAction>, b1: seq<CatalogAction>, b2: seq<CatalogAction>, b3: seq<CatalogAction>,
                            c0: Category, c1: Category, c2: Category, c3: Category)
    requires Blocks(b0, b1, b2, b3, c0, c1, c2, c3)
    ensures CategoryOrder(b0 + b1 + b2 + b3) == [c0, c1, c2, c3]
  {
    var a1 := b0 + b1;
    var a2 := a1 + b2;
    OrderOfBlock(b0, c0);
    OrderExtend(b0, b1, c1, [c0]);
    assert [c0] + [c1] == [c0, c1];
    OrderExtend(a1, b2, c2, [c0, c1]);
    assert [c0, c1] + [c2] == [c0, c1, c2];
    OrderExtend(a2, b3, c3, [c0, c1, c2]);
    assert [c0, c1, c2] + [c3] == [c0, c1, c2, c3];
  }

  /** `actionsForCategory` on the catalog, written out. */
  lemma CatalogFilters(c: Category)
    ensures ActionsForCategory(c) ==
      match c
      case Training => Actions[0..3]
      case Movement => Actions[3..5]
      case Study => Actions[5..8]
      case Reading => Actions[8..11]
  {
    CatalogBlocks();
    FilterBlocks(Actions[0..3], Actions[3..5], Actions[5..8], Actions[8..11],
                 Training, Movement, Study, Reading, c);
  }

  lemma CatalogCategoryOrder()
    ensures CategoryOrder(Actions) == Categories
  {
    CatalogBlocks();
    CategoryOrderBlocks(Actions[0..3], Actions[3..5], Actions[5..8], Actions[8..11],
                        Training, Movement, Study, Reading);
  }

  /** The position of a category's group, if it has one (the `Map` lookup). */
  function GroupIndex(groups: seq<CategoryGroup>, category: Category): (r: Option<nat>)
    ensures r.None? <==> category !in CategoriesOf(groups)
    ensures r.Some? ==> r.value < |groups| && groups[r.value].category == category
    decreases |groups|
  {
    if groups == [] then None
    else if groups[|groups| - 1].category == category then
      assert CategoriesOf(groups)[|groups| - 1] == category;
      Some(|groups| - 1)
    else
      var r := GroupIndex(groups[..|groups| - 1], category);
      assert CategoriesOf(groups) == CategoriesOf(groups[..|groups| - 1]) + [groups[|groups| - 1].category];
      r
  }

  /** Every group holds exactly its category's entries of `prefix`, in order. */
  predicate GroupsFiltered(groups: seq<CategoryGroup>, prefix: seq<CatalogAction>) {
    forall g :: 0 <= g < |groups| ==> groups[g].actions == FilterCategory(prefix, groups[g].category)
  }

  /** The grouping of `prefix`: categories in order of first appearance, each
      group holding that category's entries in order. */
  predicate GroupsOf(groups: seq<CategoryGroup>, prefix: seq<CatalogAction>) {
    CategoriesOf(groups) == CategoryOrder(prefix) && GroupsFiltered(groups, prefix)
  }

  lemma FilterSnoc(prefix: seq<CatalogAction>, action: CatalogAction, c: Category)
    ensures FilterCategory(prefix + [action], c) ==
      if action.category == c then FilterCategory(prefix, c) + [action] else FilterCategory(prefix, c)
  {
    var all := prefix + [action];
    assert all[..|all| - 1] == prefix;
  }

  lemma CategoryOrderSnoc(prefix: seq<CatalogAction>, action: CatalogAction)
    ensures CategoryOrder(prefix + [action]) ==
      if action.category in CategoryOrder(prefix) then CategoryOrder(prefix)
      else CategoryOrder(prefix) + [action.category]
  {
    var all := prefix + [action];
    assert all[..|all| - 1] == prefix;
  }

  /** A category that does not occur has no entries. */
  lemma {:induction false} FilterAbsent(acts: seq<CatalogAction>, c: Category)
    requires c !in CategoryOrder(acts)
    ensures FilterCategory(acts, c) == []
    decreases |acts|
  {
    if acts != [] {
      FilterAbsent(acts[..|acts| - 1], c);
    }
  }

  /** Opening an empty group for a category not seen so far keeps every group filtered. */
  lemma OpenGroup(groups: seq<CategoryGroup>, prefix: seq<CatalogAction>, c: Category)
    requires GroupsOf(groups, prefix) && c !in CategoriesOf(groups)
    ensures GroupsFiltered(groups + [CategoryGroup(c, [])], prefix)
    ensures CategoriesOf(groups + [CategoryGroup(c, [])]) == CategoryOrder(prefix) + [c]
  {
    FilterAbsent(prefix, c);
  }

  /** Appending an entry to its own group filters the longer prefix. */
  lemma PushToGroup(groups: seq<CategoryGroup>, prefix: seq<CatalogAction>, action: CatalogAction, g: nat)
    requires GroupsFiltered(groups, prefix) && Distinct(CategoriesOf(groups))
    requires g < |groups| && groups[g].category == action.category
    ensures var next := groups[g := CategoryGroup(action.category, groups[g].actions + [action])];
      GroupsFiltered(next, prefix + [action]) && CategoriesOf(next) == CategoriesOf(groups)
  {
    var cats := CategoriesOf(groups);
    var next := groups[g := CategoryGroup(action.category, groups[g].actions + [action])];
    forall h | 0 <= h < |next|
      ensures next[h].actions == FilterCategory(prefix + [action], next[h].category)
    {
      FilterSnoc(prefix, action, next[h].category);
      if h != g {
        assert cats[h] != cats[g];
      }
    }
    assert CategoriesOf(next) == cats;
  }

  lemma TakeSnoc(acts: seq<CatalogAction>, i: nat)
    requires i < |acts|
    ensures acts[..i] + [acts[i]] == acts[..i + 1]
  {
  }

  lemma FlattenFour(groups: seq<CategoryGroup>)
    requires |groups| == 4
    ensures Flatten(groups) == groups[0].actions + groups[1].actions + groups[2].actions + groups[3].actions
  {
    var t1, t2, t3 := groups[1..], groups[2..], groups[3..];
    assert t1[1..] == t2 && t2[1..] == t3 && t3[1..] == [];
    assert Flatten(t3) == groups[3].actions + [];
    assert Flatten(t2) == groups[2].actions + Flatten(t3);
    assert Flatten(t1) == groups[1].actions + Flatten(t2);
  }

  /** The grouping of the whole catalog: the four blocks, in order. */
  lemma CatalogGroupBlocks(groups: seq<CategoryGroup>)
    requires GroupsOf(groups, Actions)
    ensures |groups| == 4
    ensures groups[0] == CategoryGroup(Training, Actions[0..3])
    ensures groups[1] == CategoryGroup(Movement, Actions[3..5])
    ensures groups[2] == CategoryGroup(Study, Actions[5..8])
    ensures groups[3] == CategoryGroup(Reading, Actions[8..11])
  {
    CatalogCategoryOrder();
    var cats := CategoriesOf(groups);
    assert cats == Categories;
    assert groups[0].category == cats[0] && groups[1].category == cats[1];
    assert groups[2].category == cats[2] && groups[3].category == cats[3];
    CatalogFilters(Training);
    CatalogFilters(Movement);
    CatalogFilters(Study);
    CatalogFilters(Reading);
  }

  /** The grouping of the whole catalog, written out. */
  lemma CatalogGroups(groups: seq<CategoryGroup>)
    requires GroupsOf(groups, Actions)
    ensures CategoriesOf(groups) == Categories
    ensures forall i :: 0 <= i < |groups| ==> groups[i].actions == ActionsForCategory(groups[i].category)
    ensures Flatten(groups) == Actions
  {
    CatalogCategoryOrder();
    CatalogGroupBlocks(groups);
    FlattenFour(groups);
    CatalogBlocks();
  }

  /** `actionsByCategory()`: one group per category in order of first
      appearance, each holding that category's actions in catalog order;
      since each category's actions are contiguous in the catalog, the
      groups laid end to end give back the catalog. */
  method ActionsByCategory() returns (groups: seq<CategoryGroup>)
    ensures CategoriesOf(groups) == CategoryOrder(Actions) == Categories
    ensures forall i :: 0 <= i < |groups| ==> groups[i].actions == ActionsForCategory(groups[i].category)
    ensures Flatten(groups) == Actions
  {
    groups := [];
    for i := 0 to |Actions|
      invariant GroupsOf(groups, Actions[..i])
    {
      var action := Actions[i];
      TakeSnoc(Actions, i);
      CategoryOrderSnoc(Actions[..i], action);
      if action.category !in CategoriesOf(groups) {
        OpenGroup(groups, Actions[..i], action.category);
        groups := groups + [CategoryGroup(action.category, [])];
      }
      CategoryOrderDistinct(Actions[..i + 1]);
      var g := GroupIndex(groups, action.category).value;
      PushToGroup(groups, Actions[..i], action, g);
      groups := groups[g := CategoryGroup(action.category, groups[g].actions + [action])];
    }
    assert Actions[..|Actions|] == Actions;
    CatalogGroups(groups);
    CatalogCategoryOrder();
  }
}
