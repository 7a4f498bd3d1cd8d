/** The queries and updates of the category table. Every change is scoped by
    both the category id and the owner's user id, so a foreign or unknown id
    matches no row and changes nothing. */
module CategoryRepository {
  import opened Tables
  import opened Records

  /** Exactly the user's categories, in table order. */
  function List(categories: seq<Category>, userId: Id): (r: seq<Category>)
    ensures forall c :: c in r <==> c in categories && c.userId == userId
  {
    Filter(categories, (c: Category) => c.userId == userId)
  }

  /** A category of userId whose name equals name exactly, if any. */
  function FindByName(categories: seq<Category>, name: string, userId: Id): (r: Option<Category>)
    ensures r.Some? ==> r.value in categories && r.value.name == name && r.value.userId == userId
    ensures r.None? <==> forall c :: c in categories ==> !(c.name == name && c.userId == userId)
  {
    Find(categories, (c: Category) => c.name == name && c.userId == userId)
  }

  /** UPDATE categories SET name = name WHERE id = id AND user_id = userId. */
  function Edit(categories: seq<Category>, id: Id, userId: Id, name: string): (r: seq<Category>)
    ensures |r| == |categories|
    ensures forall i :: 0 <= i < |categories| ==>
      if categories[i].id == id && categories[i].userId == userId
      then r[i] == categories[i].(name := name)
      else r[i] == categories[i]
  {
    MapRows(categories, (c: Category) => if c.id == id && c.userId == userId then c.(name := name) else c)
  }

  /** DELETE FROM categories WHERE id = id AND user_id = userId. */
  function Delete(categories: seq<Category>, id: Id, userId: Id): (r: seq<Category>)
    ensures forall c :: c in r <==> c in categories && !(c.id == id && c.userId == userId)
  {
    Filter(categories, (c: Category) => !(c.id == id && c.userId == userId))
  }

  /** Deleting twice is deleting once. */
  lemma {:induction false} DeleteIsIdempotent(categories: seq<Category>, id: Id, userId: Id)
    ensures Delete(Delete(categories, id, userId), id, userId) == Delete(categories, id, userId)
  {
    if categories != [] {
      DeleteIsIdempotent(categories[1..], id, userId);
    }
  }

  /** A scoped update or delete with an id the user does not own is a no-op. */
  lemma {:induction false} ForeignIdIsNoop(categories: seq<Category>, id: Id, userId: Id, name: string)
    requires forall c :: c in categories ==> !(c.id == id && c.userId == userId)
    ensures Edit(categories, id, userId, name) == categories
    ensures Delete(categories, id, userId) == categories
  {
    assert forall i :: 0 <= i < |categories| ==> categories[i] in categories;
    if categories != [] {
      ForeignIdIsNoop(categories[1..], id, userId, name);
    }
  }

  /** Renaming keeps names unique per user, provided that the lookup the
      service makes found no same-named category of the user, or found the
      renamed category itself, and that keys are unique. */
  lemma RenameKeepsNamesUnique(categories: seq<Category>, id: Id, userId: Id, name: string)
    requires Pairwise(categories, CategoryKeysAscend)
    requires Pairwise(categories, CategoryNamesDiffer)
    requires FindByName(categories, name, userId).None? || FindByName(categories, name, userId).value.id == id
    ensures Pairwise(Edit(categories, id, userId, name), CategoryNamesDiffer)
  {
    var r := Edit(categories, id, userId, name);
    forall i, j | 0 <= i < j < |r|
      ensures CategoryNamesDiffer(r[i], r[j])
    {
      var a, b := categories[i], categories[j];
      assert a.id < b.id;
      if a.id == id && a.userId == userId {
        NameTakenOnlyBy(categories, id, userId, name, j);
      } else if b.id == id && b.userId == userId {
        NameTakenOnlyBy(categories, id, userId, name, i);
      }
    }
  }

  /** Under the rename precondition, no category of the user other than the
      renamed one carries the new name. */
  lemma NameTakenOnlyBy(categories: seq<Category>, id: Id, userId: Id, name: string, k: nat)
    requires Pairwise(categories, CategoryNamesDiffer)
    requires FindByName(categories, name, userId).None? || FindByName(categories, name, userId).value.id == id
    requires k < |categories| && categories[k].id != id
    ensures !(categories[k].userId == userId && categories[k].name == name)
  {
    var found := FindByName(categories, name, userId);
    if found.Some? {
      var m :| 0 <= m < |categories| && categories[m] == found.value;
      assert m != k;
      if m < k {
        assert CategoryNamesDiffer(categories[m], categories[k]);
      } else {
        assert CategoryNamesDiffer(categories[k], categories[m]);
      }
    }
  }
}
