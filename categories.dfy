/** The category handlers of services/product/controllers/category.controller.js:
    the name/slug and parent guards of create and update, the field merge of
    update and the reference guards of delete.  The update handler is given
    twice: as written, where its uniqueness lookup also finds the category
    being updated, and as evidently intended, where it looks only at the
    other categories. */
module Categories {
  import opened Common
  import opened Text
  import opened Models

  // ---------------------------------------------------------- invariants

  /** Every parent reference names a stored category. */
  predicate ParentsExist(categories: map<CategoryId, Category>)
  {
    forall c :: c in categories && categories[c].parentCategory.Some? ==>
      categories[c].parentCategory.value in categories
  }

  /** No category is its own direct parent. */
  predicate NoSelfParent(categories: map<CategoryId, Category>)
  {
    forall c :: c in categories ==> categories[c].parentCategory != Some(c)
  }

  /** Every stored category passed its schema. */
  predicate SchemasHold(categories: map<CategoryId, Category>)
  {
    forall c :: c in categories ==> ValidCategory(categories[c])
  }

  /** The category side of the store: schema, unique keys and parent references. */
  predicate CategoriesValid(categories: map<CategoryId, Category>)
  {
    && SchemasHold(categories)
    && UniqueCategoryKeys(categories)
    && ParentsExist(categories)
    && NoSelfParent(categories)
  }

  /** `Category.findOne({ $or: [{ name }, { slug }] })`, the values passed
      through the setters of their paths; an absent value matches nothing. */
  predicate Taken(categories: map<CategoryId, Category>, name: Option<string>, slug: Option<string>)
  {
    exists c :: c in categories && KeyMatch(categories[c], name, slug)
  }

  predicate KeyMatch(cat: Category, name: Option<string>, slug: Option<string>)
  {
    (name.Some? && cat.name == Trim(name.value)) || (slug.Some? && cat.slug == NormalizeSlug(slug.value))
  }

  // -------------------------------------------------------------- create

  /** `new Category({...})` with `parentCategory || null`. */
  function NewCategory(name: string, slug: string, description: Option<string>, parent: Option<CategoryId>)
    : (c: Category)
    ensures c.name == Trim(name) && c.slug == NormalizeSlug(slug) && c.parentCategory == parent
    ensures description.None? ==> c.description.None?
    ensures description.Some? ==> c.description == Some(Trim(description.value))
  {
    Category(Trim(name), NormalizeSlug(slug),
             if description.Some? then Some(Trim(description.value)) else None, parent)
  }

  /** POST /api/categories.  `parent` is `None` for any falsy `parentCategory`;
      `newId` is the id the store gives the new category. */
  function CreateCategory(db: Db, name: string, slug: string, description: Option<string>,
                          parent: Option<CategoryId>, newId: CategoryId): (r: Response)
    requires newId !in db.categories
    ensures r.outcome == BadRequest("Category name or slug already in use") <==>
      Taken(db.categories, Some(name), Some(slug))
    ensures r.outcome == BadRequest("Parent category not found") <==>
      !Taken(db.categories, Some(name), Some(slug)) && parent.Some? && parent.value !in db.categories
    ensures r.outcome != Created ==> r.db == db
    ensures r.outcome == Created ==>
      && ValidCategory(NewCategory(name, slug, description, parent))
      && r.db == db.(categories := db.categories[newId := NewCategory(name, slug, description, parent)])
    ensures r.outcome == ServerError <==>
      && !Taken(db.categories, Some(name), Some(slug))
      && !(parent.Some? && parent.value !in db.categories)
      && !ValidCategory(NewCategory(name, slug, description, parent))
    ensures r.outcome in {Created, ServerError, BadRequest("Category name or slug already in use"),
                          BadRequest("Parent category not found")}
  {
    if Taken(db.categories, Some(name), Some(slug)) then
      Response(BadRequest("Category name or slug already in use"), db)
    else if parent.Some? && parent.value !in db.categories then
      Response(BadRequest("Parent category not found"), db)
    else
      var c := NewCategory(name, slug, description, parent);
      if ValidCategory(c) then Response(Created, db.(categories := db.categories[newId := c]))
      else Response(ServerError, db)
  }

  lemma CreateKeepsCategoriesValid(db: Db, name: string, slug: string, description: Option<string>,
                                   parent: Option<CategoryId>, newId: CategoryId)
    requires newId !in db.categories && CategoriesValid(db.categories)
    ensures CategoriesValid(CreateCategory(db, name, slug, description, parent, newId).db.categories)
  {
    var r := CreateCategory(db, name, slug, description, parent, newId);
    if r.outcome == Created {
      var c := NewCategory(name, slug, description, parent);
      forall a | a in db.categories
        ensures db.categories[a].name != c.name && db.categories[a].slug != c.slug
      {
        assert !KeyMatch(db.categories[a], Some(name), Some(slug));
      }
      InsertKeepsValid(db.categories, newId, c);
    } else {
      assert r.db == db;
    }
  }

  /** Storing a new valid category with fresh keys and an existing parent
      other than itself keeps the category side valid. */
  lemma InsertKeepsValid(categories: map<CategoryId, Category>, id: CategoryId, c: Category)
    requires CategoriesValid(categories) && id !in categories && ValidCategory(c)
    requires forall a :: a in categories ==> categories[a].name != c.name && categories[a].slug != c.slug
    requires c.parentCategory.Some? ==> c.parentCategory.value in categories
    ensures CategoriesValid(categories[id := c])
  {
    StoreKeepsValid(categories, id, c);
  }

  /** Storing `m` under `id`, new or not, keeps the category side valid when
      `m` passes its schema, no other category holds its keys and its parent
      is stored and is not `id`. */
  lemma StoreKeepsValid(categories: map<CategoryId, Category>, id: CategoryId, m: Category)
    requires CategoriesValid(categories) && ValidCategory(m)
    requires forall a :: a in categories && a != id ==> categories[a].name != m.name && categories[a].slug != m.slug
    requires m.parentCategory.Some? ==> m.parentCategory.value in categories && m.parentCategory.value != id
    ensures CategoriesValid(categories[id := m])
  {
    StoreKeepsSchemas(categories, id, m);
    StoreKeepsKeys(categories, id, m);
    StoreKeepsParents(categories, id, m);
  }

  lemma StoreKeepsSchemas(categories: map<CategoryId, Category>, id: CategoryId, m: Category)
    requires SchemasHold(categories) && ValidCategory(m)
    ensures SchemasHold(categories[id := m])
  {
  }

  lemma StoreKeepsKeys(categories: map<CategoryId, Category>, id: CategoryId, m: Category)
    requires UniqueCategoryKeys(categories)
    requires forall a :: a in categories && a != id ==> categories[a].name != m.name && categories[a].slug != m.slug
    ensures UniqueCategoryKeys(categories[id := m])
  {
    var after := categories[id := m];
    forall a, b | a in after && b in after && a != b
      ensures after[a].name != after[b].name && after[a].slug != after[b].slug
    {
      if a != id && b != id {
        assert after[a] == categories[a] && after[b] == categories[b];
      }
    }
  }

  lemma StoreKeepsParents(categories: map<CategoryId, Category>, id: CategoryId, m: Category)
    requires ParentsExist(categories) && NoSelfParent(categories)
    requires m.parentCategory.Some? ==> m.parentCategory.value in categories && m.parentCategory.value != id
    ensures ParentsExist(categories[id := m]) && NoSelfParent(categories[id := m])
  {
  }

  // -------------------------------------------------------------- update

  /** The body of PUT /api/categories/:id.  `None` is an absent field. */
  datatype CategoryBody = CategoryBody(
    name: Option<string>,
    slug: Option<string>,
    description: Option<string>,
    parentCategory: Arg<CategoryId>)

  /** The field assignments of update: `x || old` for name, slug and
      description (through their setters), `x !== undefined ? x : old` for the
      parent, so `null` makes the category a root. */
  function MergeCategory(cur: Category, b: CategoryBody): (m: Category)
    ensures b.name.None? || b.name.value == "" ==> m.name == cur.name
    ensures b.name.Some? && b.name.value != "" ==> m.name == Trim(b.name.value)
    ensures b.slug.None? || b.slug.value == "" ==> m.slug == cur.slug
    ensures b.slug.Some? && b.slug.value != "" ==> m.slug == NormalizeSlug(b.slug.value)
    ensures b.description.None? || b.description.value == "" ==> m.description == cur.description
    ensures b.description.Some? && b.description.value != "" ==> m.description == Some(Trim(b.description.value))
    ensures b.parentCategory.Undefined? ==> m.parentCategory == cur.parentCategory
    ensures b.parentCategory.Null? ==> m.parentCategory.None?
    ensures b.parentCategory.Val? ==> m.parentCategory == Some(b.parentCategory.value)
  {
    Category(
      name := if b.name.Some? && b.name.value != "" then Trim(b.name.value) else cur.name,
      slug := if b.slug.Some? && b.slug.value != "" then NormalizeSlug(b.slug.value) else cur.slug,
      description := if b.description.Some? && b.description.value != "" then Some(Trim(b.description.value))
                     else cur.description,
      parentCategory := match b.parentCategory
        case Undefined => cur.parentCategory
        case Null => None
        case Val(p) => Some(p))
  }

  /** The uniqueness lookup runs when a truthy name or a truthy slug differs,
      as sent, from the stored one. */
  predicate KeysChange(cur: Category, b: CategoryBody)
  {
    || (b.name.Some? && b.name.value != "" && b.name.value != cur.name)
    || (b.slug.Some? && b.slug.value != "" && b.slug.value != cur.slug)
  }

  /** The parent check runs when a truthy parent differs from the stored one. */
  predicate ParentChanges(cur: Category, b: CategoryBody)
  {
    b.parentCategory.Val? && cur.parentCategory != Some(b.parentCategory.value)
  }

  /** What follows the uniqueness guard in update: the parent guard, the
      merge and the save. */
  function ApplyUpdate(db: Db, id: CategoryId, b: CategoryBody): (r: Response)
    requires id in db.categories
    ensures var cur := db.categories[id];
      && (r.outcome == BadRequest("Parent category not found") <==>
            ParentChanges(cur, b) && b.parentCategory.value !in db.categories)
      && (r.outcome == BadRequest("Category cannot be its own parent") <==>
            ParentChanges(cur, b) && b.parentCategory.value == id)
    ensures r.outcome != Ok ==> r.db == db
    ensures r.outcome == Ok ==>
      && ValidCategory(MergeCategory(db.categories[id], b))
      && r.db == db.(categories := db.categories[id := MergeCategory(db.categories[id], b)])
    ensures var cur := db.categories[id];
      r.outcome == ServerError <==>
        && !(ParentChanges(cur, b) && b.parentCategory.value !in db.categories)
        && !(ParentChanges(cur, b) && b.parentCategory.value == id)
        && !ValidCategory(MergeCategory(cur, b))
    ensures r.outcome in {Ok, ServerError, BadRequest("Parent category not found"),
                          BadRequest("Category cannot be its own parent")}
  {
    var cur := db.categories[id];
    if ParentChanges(cur, b) && b.parentCategory.value !in db.categories then
      Response(BadRequest("Parent category not found"), db)
    else if ParentChanges(cur, b) && b.parentCategory.value == id then
      Response(BadRequest("Category cannot be its own parent"), db)
    else
      var m := MergeCategory(cur, b);
      if ValidCategory(m) then Response(Ok, db.(categories := db.categories[id := m]))
      else Response(ServerError, db)
  }

  /** PUT /api/categories/:id as written: the `$or` lookup is not restricted
      to other categories, so it also matches the category being updated. */
  function UpdateCategoryAsWritten(db: Db, id: CategoryId, b: CategoryBody): (r: Response)
    ensures id !in db.categories ==> r == Response(NotFound("Category not found"), db)
    ensures r.outcome == BadRequest("Category name or slug already in use") <==>
      id in db.categories && KeysChange(db.categories[id], b) && Taken(db.categories, b.name, b.slug)
    ensures id in db.categories && !(KeysChange(db.categories[id], b) && Taken(db.categories, b.name, b.slug)) ==>
      r == ApplyUpdate(db, id, b)
  {
    if id !in db.categories then Response(NotFound("Category not found"), db)
    else if KeysChange(db.categories[id], b) && Taken(db.categories, b.name, b.slug) then
      Response(BadRequest("Category name or slug already in use"), db)
    else ApplyUpdate(db, id, b)
  }

  /** Some category other than `id` holds the name or the slug. */
  predicate TakenByOther(categories: map<CategoryId, Category>, id: CategoryId, name: Option<string>, slug: Option<string>)
  {
    exists c :: c in categories && c != id && KeyMatch(categories[c], name, slug)
  }

  /** PUT /api/categories/:id as evidently intended: only another category
      holding the name or the slug blocks the update. */
  function UpdateCategory(db: Db, id: CategoryId, b: CategoryBody): (r: Response)
    ensures id !in db.categories ==> r == Response(NotFound("Category not found"), db)
    ensures r.outcome == BadRequest("Category name or slug already in use") <==>
      id in db.categories && KeysChange(db.categories[id], b) && TakenByOther(db.categories, id, b.name, b.slug)
    ensures id in db.categories && !(KeysChange(db.categories[id], b) && TakenByOther(db.categories, id, b.name, b.slug)) ==>
      r == ApplyUpdate(db, id, b)
  {
    if id !in db.categories then Response(NotFound("Category not found"), db)
    else if KeysChange(db.categories[id], b) && TakenByOther(db.categories, id, b.name, b.slug) then
      Response(BadRequest("Category name or slug already in use"), db)
    else ApplyUpdate(db, id, b)
  }

  /** A single root category named and slugged "a". */
  const OneCategory := Db(map[], map[0 := Category("a", "a", None, None)], [], [])

  /** Resend the name "a" and change the slug to "b". */
  const ResendNameNewSlug := CategoryBody(Some("a"), Some("b"), None, Undefined)

  /** As written, resending a category's own name while changing its slug is
      refused: the lookup finds the category itself by its name. */
  lemma ResentNameBlocksSlugChange()
    ensures UpdateCategoryAsWritten(OneCategory, 0, ResendNameNewSlug).outcome
      == BadRequest("Category name or slug already in use")
  {
    assert Trimmed("a") by {
      assert !IsSpace('a');
    }
    TrimOfTrimmed("a");
    assert KeyMatch(OneCategory.categories[0], ResendNameNewSlug.name, ResendNameNewSlug.slug);
  }

  /** As intended, the same update succeeds and changes only the slug. */
  lemma ResentNameAllowsSlugChange()
    ensures UpdateCategory(OneCategory, 0, ResendNameNewSlug)
      == Response(Ok, OneCategory.(categories := map[0 := Category("a", "b", None, None)]))
  {
    var m := Category("a", "b", None, None);
    ResendMerge();
    assert !TakenByOther(OneCategory.categories, 0, ResendNameNewSlug.name, ResendNameNewSlug.slug);
    assert ApplyUpdate(OneCategory, 0, ResendNameNewSlug) == Response(Ok, OneCategory.(categories := OneCategory.categories[0 := m]));
    assert OneCategory.categories[0 := m] == map[0 := m];
  }

  lemma ResendMerge()
    ensures MergeCategory(OneCategory.categories[0], ResendNameNewSlug) == Category("a", "b", None, None)
    ensures ValidCategory(Category("a", "b", None, None))
  {
    assert Trimmed("a") && Trimmed("b") by {
      assert !IsSpace('a') && !IsSpace('b');
    }
    TrimOfTrimmed("a");
    NormalSlugIsFixed("b");
  }

  /** The intended guard is never stricter than the written one: whenever the
      written handler gets past its lookup, the intended one answers the same. */
  lemma IntendedAgreesWhenWrittenPasses(db: Db, id: CategoryId, b: CategoryBody)
    requires UpdateCategoryAsWritten(db, id, b).outcome != BadRequest("Category name or slug already in use")
    ensures UpdateCategory(db, id, b) == UpdateCategoryAsWritten(db, id, b)
  {
  }

  /** A successful update keeps the category side valid: its keys stay unique
      (the guard and the unchanged-key case), a changed parent exists and is
      not the category itself, and a kept parent was valid already. */
  lemma UpdateKeepsCategoriesValid(db: Db, id: CategoryId, b: CategoryBody)
    requires CategoriesValid(db.categories)
    ensures CategoriesValid(UpdateCategory(db, id, b).db.categories)
  {
    var r := UpdateCategory(db, id, b);
    if r.outcome == Ok {
      var cur := db.categories[id];
      var m := MergeCategory(cur, b);
      assert r.db.categories == db.categories[id := m];
      OthersKeepKeys(db.categories, id, cur, b, m);
      StoreKeepsValid(db.categories, id, m);
    } else {
      assert r.db == db;
    }
  }

  /** After a successful intended update no other category holds the merged
      name or slug. */
  lemma OthersKeepKeys(categories: map<CategoryId, Category>, id: CategoryId, cur: Category, b: CategoryBody, m: Category)
    requires CategoriesValid(categories) && id in categories && cur == categories[id] && m == MergeCategory(cur, b)
    requires !(KeysChange(cur, b) && TakenByOther(categories, id, b.name, b.slug))
    ensures forall a :: a in categories && a != id ==> categories[a].name != m.name && categories[a].slug != m.slug
  {
    TrimOfTrimmed(cur.name);
    NormalSlugIsFixed(cur.slug);
    forall a | a in categories && a != id
      ensures categories[a].name != m.name && categories[a].slug != m.slug
    {
      if KeysChange(cur, b) {
        assert !KeyMatch(categories[a], b.name, b.slug);
      }
    }
  }

  /** The guard looks at the direct parent only: two categories can be made
      each other's parent. */
  lemma TwoCycleAccepted()
    ensures var db := Db(map[], map[0 := Category("a", "a", None, Some(1)), 1 := Category("b", "b", None, None)], [], []);
      var r := UpdateCategory(db, 1, CategoryBody(None, None, None, Val(0)));
      && r.outcome == Ok
      && r.db.categories[0].parentCategory == Some(1) && r.db.categories[1].parentCategory == Some(0)
  {
    assert Trimmed("b") by {
      assert !IsSpace('b');
    }
    var b := CategoryBody(None, None, None, Val(0));
    assert MergeCategory(Category("b", "b", None, None), b) == Category("b", "b", None, Some(0));
  }

  // -------------------------------------------------------------- delete

  /** Some category has `id` as its parent. */
  predicate HasChildren(categories: map<CategoryId, Category>, id: CategoryId)
  {
    exists c :: c in categories && categories[c].parentCategory == Some(id)
  }

  /** Some product lists `id` among its `categoryIds`. */
  predicate UsedByProducts(products: map<ProductId, Product>, id: CategoryId)
  {
    exists p :: p in products && id in products[p].categoryIds
  }

  /** DELETE /api/categories/:id. */
  function DeleteCategory(db: Db, id: CategoryId): (r: Response)
    ensures r.outcome == NotFound("Category not found") <==> id !in db.categories
    ensures r.outcome == BadRequest("Cannot delete category with subcategories") <==>
      id in db.categories && HasChildren(db.categories, id)
    ensures r.outcome == BadRequest("Cannot delete category used by products") <==>
      id in db.categories && !HasChildren(db.categories, id) && UsedByProducts(db.products, id)
    ensures r.outcome != Ok ==> r.db == db
    ensures r.outcome == Ok ==> r.db == db.(categories := db.categories - {id})
    ensures r.outcome in {Ok, NotFound("Category not found"), BadRequest("Cannot delete category with subcategories"),
                          BadRequest("Cannot delete category used by products")}
  {
    if id !in db.categories then Response(NotFound("Category not found"), db)
    else if HasChildren(db.categories, id) then Response(BadRequest("Cannot delete category with subcategories"), db)
    else if UsedByProducts(db.products, id) then Response(BadRequest("Cannot delete category used by products"), db)
    else Response(Ok, db.(categories := db.categories - {id}))
  }

  /** Every category a product lists is stored. */
  predicate ProductCategoriesExist(db: Db)
  {
    forall p, i :: p in db.products && 0 <= i < |db.products[p].categoryIds| ==>
      db.products[p].categoryIds[i] in db.categories
  }

  /** A successful delete leaves no reference to the deleted category: the
      category side stays valid and products name only stored categories when
      they did before. */
  lemma DeleteLeavesNoReference(db: Db, id: CategoryId)
    requires CategoriesValid(db.categories)
    ensures var r := DeleteCategory(db, id);
      && CategoriesValid(r.db.categories)
      && (ProductCategoriesExist(db) ==> ProductCategoriesExist(r.db))
      && (r.outcome == Ok ==> id !in r.db.categories && !UsedByProducts(r.db.products, id))
  {
    var r := DeleteCategory(db, id);
    if r.outcome == Ok {
      var after := db.categories - {id};
      assert r.db.categories == after;
      forall c | c in after && after[c].parentCategory.Some?
        ensures after[c].parentCategory.value in after
      {
        assert db.categories[c].parentCategory != Some(id);
      }
      if ProductCategoriesExist(db) {
        forall p, i | p in r.db.products && 0 <= i < |r.db.products[p].categoryIds|
          ensures r.db.products[p].categoryIds[i] in after
        {
          assert db.products[p].categoryIds[i] != id;
        }
      }
    } else {
      assert r.db == db;
    }
  }
}
