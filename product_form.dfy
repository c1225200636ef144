/**
 * The product form: the list of property definitions it asks the user to
 * fill, gathered by walking the selected category's parent chain, and the
 * update of the product's name-to-value property map.
 */
module ProductForm {
  import opened Wrappers
  import opened Categories

  /** Position `i` holds the first category carrying `id`. */
  predicate FirstWithId(categories: seq<Category>, id: string, i: int)
  {
    && 0 <= i < |categories|
    && categories[i].id == id
    && forall j :: 0 <= j < i ==> categories[j].id != id
  }

  /** `categories.find(({ _id }) => _id === id)`: a listed category carrying
      `id`; `FindIsFirstMatch` shows it is the first one. */
  function Find(categories: seq<Category>, id: string): (r: Option<Category>)
    ensures r.Some? ==> r.value in categories && r.value.id == id
  {
    if categories == [] then None
    else if categories[0].id == id then Some(categories[0])
    else Find(categories[1..], id)
  }

  /** `Find` answers `None` exactly when no category carries `id`, and
      otherwise the category at the first position that carries it. */
  lemma {:induction false} FindIsFirstMatch(categories: seq<Category>, id: string)
    ensures Find(categories, id).None? <==> forall i :: 0 <= i < |categories| ==> categories[i].id != id
    ensures Find(categories, id).Some? ==>
      exists i :: FirstWithId(categories, id, i) && categories[i] == Find(categories, id).value
  {
    if categories != [] {
      if categories[0].id == id {
        assert FirstWithId(categories, id, 0);
      } else {
        FindIsFirstMatch(categories[1..], id);
        if Find(categories, id).Some? {
          var i :| FirstWithId(categories[1..], id, i) && categories[1..][i] == Find(categories, id).value;
          assert FirstWithId(categories, id, i + 1);
        } else {
          forall i | 1 <= i < |categories| ensures categories[i].id != id {
            assert categories[i] == categories[1..][i - 1];
          }
        }
      }
    }
  }

  /** The loop condition `categoryInfo?.parent?._id`: a parent id that is
      present and, being tested for truth, non-empty. */
  predicate HasParent(c: Category)
  {
    c.parent.Some? && c.parent.value != ""
  }

  /** What building the list of properties to fill comes to: the list; the
      TypeError thrown by spreading `undefined` when the looked-up `missingId`
      names no category; or a loop that never exits. */
  datatype Resolution =
    | Resolved(properties: seq<StoredProperty>)
    | SpreadOfUndefined(missingId: string)
    | Loops

  /** Properties gathered before the rest of the walk, put in front of its outcome. */
  function Prepend(ps: seq<StoredProperty>, rest: Resolution): (r: Resolution)
  {
    match rest
    case Resolved(qs) => Resolved(ps + qs)
    case _ => rest
  }

  /** The properties of the ancestors of `c`, nearest first, following at most
      `fuel` parent links; `Loops` when the fuel runs out with a parent still to visit. */
  function Inherited(categories: seq<Category>, c: Category, fuel: nat): (r: Resolution)
    ensures r.Loops? ==> HasParent(c)
    ensures r.SpreadOfUndefined? ==> r.missingId != ""
    decreases fuel
  {
    if !HasParent(c) then Resolved([])
    else if fuel == 0 then Loops
    else
      match Find(categories, c.parent.value)
      case None => SpreadOfUndefined(c.parent.value)
      case Some(p) => Prepend(p.properties, Inherited(categories, p, fuel - 1))
  }

  /** The properties to fill for the selected `category`, following at most
      `fuel` parent links. Nothing is gathered when there are no categories or
      no category is selected. */
  function ResolveWithin(categories: seq<Category>, category: string, fuel: nat): (r: Resolution)
    ensures r.SpreadOfUndefined? ==> r.missingId != ""
    ensures r.Resolved? && |categories| > 0 && category != "" ==>
      Find(categories, category).Some? && Find(categories, category).value.properties <= r.properties
  {
    if |categories| == 0 || category == "" then Resolved([])
    else
      match Find(categories, category)
      case None => SpreadOfUndefined(category)
      case Some(c) => Prepend(c.properties, Inherited(categories, c, fuel))
  }

  /** The outcome of the walk, allowing one parent link per category;
      `ResolveIsExact` shows no larger allowance changes it. */
  function Resolve(categories: seq<Category>, category: string): (r: Resolution)
    ensures r.SpreadOfUndefined? ==> r.missingId != ""
    ensures r.Loops? ==> |categories| > 0 && category != ""
  {
    ResolveWithin(categories, category, |categories|)
  }

  /** The walk that builds `propertiesToFill`: the selected category's own
      properties, then each ancestor's, until a category without a parent.
      Its caller must not hand it a cyclic chain, on which it never returns. */
  method PropertiesToFill(categories: seq<Category>, category: string) returns (r: Resolution)
    requires !Resolve(categories, category).Loops?
    ensures r == Resolve(categories, category)
  {
    var propertiesToFill: seq<StoredProperty> := [];
    if |categories| > 0 && category != "" {
      var categoryInfo := Find(categories, category);
      if categoryInfo.None? {
        return SpreadOfUndefined(category);
      }
      var info := categoryInfo.value;
      propertiesToFill := propertiesToFill + info.properties;
      ghost var fuel: nat := |categories|;
      while HasParent(info)
        invariant !Inherited(categories, info, fuel).Loops?
        invariant Resolve(categories, category) == Prepend(propertiesToFill, Inherited(categories, info, fuel))
        decreases fuel
      {
        var parentId := info.parent.value;
        var parentCategory := Find(categories, parentId);
        if parentCategory.None? {
          return SpreadOfUndefined(parentId);
        }
        propertiesToFill := propertiesToFill + parentCategory.value.properties;
        info := parentCategory.value;
        fuel := fuel - 1;
      }
    }
    return Resolved(propertiesToFill);
  }

  /** `handleChangeProductProperty`: the copy of the product's properties in
      which `propertyName` maps to `value` and every other key keeps its value. */
  function ChangeProductProperty(props: map<string, string>, propertyName: string, value: string): (r: map<string, string>)
    ensures r.Keys == props.Keys + {propertyName}
    ensures r[propertyName] == value
    ensures forall k :: k in props && k != propertyName ==> r[k] == props[k]
  {
    props[propertyName := value]
  }

  /** The map's last-write-wins law: two writes to one name keep the later
      value. One use: when two levels of the chain define properties with the
      same name, they share one entry, holding the value chosen last. */
  lemma LastChangeWins(props: map<string, string>, propertyName: string, first: string, second: string)
    ensures ChangeProductProperty(ChangeProductProperty(props, propertyName, first), propertyName, second)
         == ChangeProductProperty(props, propertyName, second)
  {
  }

  /** Changes to two different properties do not interfere. */
  lemma ChangesToDistinctNamesCommute(props: map<string, string>, n1: string, v1: string, n2: string, v2: string)
    requires n1 != n2
    ensures ChangeProductProperty(ChangeProductProperty(props, n1, v1), n2, v2)
         == ChangeProductProperty(ChangeProductProperty(props, n2, v2), n1, v1)
  {
  }
}
