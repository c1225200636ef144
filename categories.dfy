/**
 * The category editor page: the records it shares with the product form, the
 * conversion between the editor's comma-joined values and the stored value
 * lists, and the editor's own state with its event handlers.
 */
module Categories {
  import opened Wrappers
  import opened StringOps

  /** The separator the editor uses between allowed values. */
  const ValueSeparator: char := ','

  /** A property definition as the editor holds it: its allowed values as one
      comma-joined string, exactly as typed. */
  datatype EditorProperty = EditorProperty(id: string, name: string, values: string)

  /** A property definition as it is stored and as the product form reads it:
      its allowed values as a list. */
  datatype StoredProperty = StoredProperty(id: string, name: string, values: seq<string>)

  /** A category. `parent` is the `_id` of the populated parent document, and
      `None` when the parent is null or has no `_id`. */
  datatype Category = Category(id: string, name: string, parent: Option<string>, properties: seq<StoredProperty>)

  /** The body of the request that saves a category. */
  datatype CategoryBody = CategoryBody(name: string, parentCategory: Option<string>, properties: seq<StoredProperty>)

  /** A save creates a category, or updates the one being edited. */
  datatype SaveRequest = Create(body: CategoryBody) | Update(id: string, body: CategoryBody)

  /** One editor record as it is saved: the values string is split at commas,
      and joining the pieces again gives the string back. */
  function SaveProperty(p: EditorProperty): (r: StoredProperty)
    ensures r.id == p.id && r.name == p.name
    ensures Join(r.values, ValueSeparator) == p.values
  {
    JoinSplit(p.values, ValueSeparator);
    StoredProperty(p.id, p.name, Split(p.values, ValueSeparator))
  }

  /** One stored record as the editor shows it: the values are joined with
      commas, and a comma-free non-empty list splits back into itself. */
  function EditProperty(p: StoredProperty): (r: EditorProperty)
    ensures r.id == p.id && r.name == p.name
    ensures CommaFree(p.values) ==> Split(r.values, ValueSeparator) == p.values
  {
    assert CommaFree(p.values) ==> Split(Join(p.values, ValueSeparator), ValueSeparator) == p.values by {
      if CommaFree(p.values) {
        SplitJoin(p.values, ValueSeparator);
      }
    }
    EditorProperty(p.id, p.name, Join(p.values, ValueSeparator))
  }

  /** The properties of a save request: one stored record per editor record,
      in the same order, keeping id and name, with the values split at commas. */
  function SaveProperties(ps: seq<EditorProperty>): (r: seq<StoredProperty>)
    ensures |r| == |ps|
    ensures forall i :: 0 <= i < |ps| ==>
      && r[i].id == ps[i].id
      && r[i].name == ps[i].name
      && r[i].values == Split(ps[i].values, ValueSeparator)
  {
    if ps == [] then [] else [SaveProperty(ps[0])] + SaveProperties(ps[1..])
  }

  /** The editor records loaded when a category is opened: one per stored
      record, in the same order, keeping id and name, with the values joined. */
  function EditProperties(ps: seq<StoredProperty>): (r: seq<EditorProperty>)
    ensures |r| == |ps|
    ensures forall i :: 0 <= i < |ps| ==>
      && r[i].id == ps[i].id
      && r[i].name == ps[i].name
      && r[i].values == Join(ps[i].values, ValueSeparator)
  {
    if ps == [] then [] else [EditProperty(ps[0])] + EditProperties(ps[1..])
  }

  /** Saving and then opening a category shows every editor record exactly as
      it was typed. */
  lemma {:induction false} EditAfterSave(ps: seq<EditorProperty>)
    ensures EditProperties(SaveProperties(ps)) == ps
  {
    var r := EditProperties(SaveProperties(ps));
    forall i | 0 <= i < |ps| ensures r[i] == ps[i] {
      JoinSplit(ps[i].values, ValueSeparator);
    }
  }

  /** Whether a stored value list survives being joined and split again: it has
      at least one value and no value holds a comma. */
  predicate CommaFree(values: seq<string>)
  {
    |values| >= 1 && forall j :: 0 <= j < |values| ==> ValueSeparator !in values[j]
  }

  /** Opening and then saving a category stores the same records when every
      value list is comma-free and non-empty. */
  lemma {:induction false} SaveAfterEdit(ps: seq<StoredProperty>)
    requires forall i :: 0 <= i < |ps| ==> CommaFree(ps[i].values)
    ensures SaveProperties(EditProperties(ps)) == ps
  {
    var r := SaveProperties(EditProperties(ps));
    forall i | 0 <= i < |ps| ensures r[i] == ps[i] {
      SplitJoin(ps[i].values, ValueSeparator);
    }
  }

  /** A stored property with no values comes back from open-then-save with one
      empty value. */
  lemma EmptyValuesComeBackBlank(p: StoredProperty)
    requires p.values == []
    ensures SaveProperties(EditProperties([p])) == [p.(values := [""])]
  {
    JoinEmptySplitsToBlank(ValueSeparator);
  }

  /** `s.filter((_, k) => k !== index)`, where the first element of `s` sits at
      position `start` of the filtered array. */
  function WithoutIndex<T>(s: seq<T>, index: int, start: int): (r: seq<T>)
    ensures |r| == if start <= index < start + |s| then |s| - 1 else |s|
    ensures forall x :: x in r ==> x in s
    decreases |s|
  {
    if s == [] then []
    else (if start == index then [] else [s[0]]) + WithoutIndex(s[1..], index, start + 1)
  }

  /** The filter removes exactly the element at `index` when that position
      exists, keeping the others in order, and changes nothing otherwise. */
  lemma {:induction false} WithoutIndexRemovesOne<T>(s: seq<T>, index: int, start: int)
    ensures WithoutIndex(s, index, start) ==
      if start <= index < start + |s| then s[..index - start] + s[index - start + 1..] else s
    decreases |s|
  {
    if s != [] {
      WithoutIndexRemovesOne(s[1..], index, start + 1);
      if start == index {
        assert s[..0] + s[1..] == s[1..];
      } else if start < index < start + |s| {
        var k := index - start;
        assert s[1..][..k - 1] == s[1..k];
        assert s[1..][k..] == s[k + 1..];
        assert [s[0]] + (s[1..k] + s[k + 1..]) == s[..k] + s[k + 1..];
      } else {
        assert [s[0]] + s[1..] == s;
      }
    }
  }

  /** The state of the category editor page that the handlers below change. */
  class CategoryEditor {
    var editedCategory: Option<Category>
    var name: string
    /** `None` stands for `undefined`, which opening a category without a parent stores. */
    var parentCategory: Option<string>
    var properties: seq<EditorProperty>

    /** No category is being edited and the form is empty. */
    ghost predicate Blank()
      reads this
    {
      && editedCategory == None
      && name == ""
      && parentCategory == Some("")
      && properties == []
    }

    constructor ()
      ensures Blank()
    {
      editedCategory := None;
      name := "";
      parentCategory := Some("");
      properties := [];
    }

    /** Typing in the name field. */
    method SetName(newName: string)
      modifies this
      ensures name == newName
      ensures editedCategory == old(editedCategory) && parentCategory == old(parentCategory)
      ensures properties == old(properties)
    {
      name := newName;
    }

    /** Choosing a parent in the select box ("" is "No parent category"). */
    method SetParentCategory(parentId: string)
      modifies this
      ensures parentCategory == Some(parentId)
      ensures editedCategory == old(editedCategory) && name == old(name)
      ensures properties == old(properties)
    {
      parentCategory := Some(parentId);
    }

    /** Leaves editing: the form goes back to its blank state. */
    method CancelEditing()
      modifies this
      ensures Blank()
    {
      name := "";
      editedCategory := None;
      parentCategory := Some("");
      properties := [];
    }

    /** Builds the request for the form as it stands, an update when a category
        is being edited and a creation otherwise, then clears the form (the
        request is taken to succeed). */
    method SaveCategory() returns (request: SaveRequest)
      modifies this
      ensures request.body == CategoryBody(old(name), old(parentCategory), SaveProperties(old(properties)))
      ensures request.Update? <==> old(editedCategory).Some?
      ensures request.Update? ==> request.id == old(editedCategory).value.id
      ensures Blank()
    {
      var body := CategoryBody(name, parentCategory, SaveProperties(properties));
      if editedCategory.Some? {
        request := Update(editedCategory.value.id, body);
      } else {
        request := Create(body);
      }
      CancelEditing();
    }

    /** Opens a category in the form, its value lists joined into strings. */
    method EditCategory(category: Category)
      modifies this
      ensures editedCategory == Some(category)
      ensures name == category.name
      ensures parentCategory == category.parent
      ensures properties == EditProperties(category.properties)
    {
      editedCategory := Some(category);
      name := category.name;
      parentCategory := category.parent;
      properties := EditProperties(category.properties);
    }

    /** Appends one blank property record carrying the freshly generated id. */
    method AddProperty(newId: string)
      modifies this
      ensures |properties| == |old(properties)| + 1
      ensures properties[..|old(properties)|] == old(properties)
      ensures properties[|old(properties)|] == EditorProperty(newId, "", "")
      ensures editedCategory == old(editedCategory) && name == old(name)
      ensures parentCategory == old(parentCategory)
    {
      properties := properties + [EditorProperty(newId, "", "")];
    }

    /** Drops the record at `index`; an index with no record changes nothing. */
    method RemoveProperty(index: int)
      modifies this
      ensures 0 <= index < |old(properties)| ==>
        properties == old(properties)[..index] + old(properties)[index + 1..]
      ensures !(0 <= index < |old(properties)|) ==> properties == old(properties)
      ensures editedCategory == old(editedCategory) && name == old(name)
      ensures parentCategory == old(parentCategory)
    {
      WithoutIndexRemovesOne(properties, index, 0);
      properties := WithoutIndex(properties, index, 0);
    }

    /** Renames the record at `index`. With no record there, the assignment
        through `undefined` throws a TypeError; `ok` false marks that throw,
        after which the page itself does not carry on. */
    method ChangePropertyName(index: int, newName: string) returns (ok: bool)
      modifies this
      ensures ok <==> 0 <= index < |old(properties)|
      ensures |properties| == |old(properties)|
      ensures ok ==> properties[index] == EditorProperty(old(properties)[index].id, newName, old(properties)[index].values)
      ensures forall j :: 0 <= j < |properties| && j != index ==> properties[j] == old(properties)[j]
      ensures editedCategory == old(editedCategory) && name == old(name)
      ensures parentCategory == old(parentCategory)
    {
      ok := 0 <= index < |properties|;
      if ok {
        properties := properties[index := properties[index].(name := newName)];
      }
    }

    /** Replaces the values string of the record at `index`. With no record
        there, the assignment throws a TypeError; `ok` false marks that throw,
        after which the page itself does not carry on. */
    method ChangePropertyValues(index: int, newValues: string) returns (ok: bool)
      modifies this
      ensures ok <==> 0 <= index < |old(properties)|
      ensures |properties| == |old(properties)|
      ensures ok ==> properties[index] == EditorProperty(old(properties)[index].id, old(properties)[index].name, newValues)
      ensures forall j :: 0 <= j < |properties| && j != index ==> properties[j] == old(properties)[j]
      ensures editedCategory == old(editedCategory) && name == old(name)
      ensures parentCategory == old(parentCategory)
    {
      ok := 0 <= index < |properties|;
      if ok {
        properties := properties[index := properties[index].(values := newValues)];
      }
    }
  }
}
