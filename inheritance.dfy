/**
 * Facts about the parent-chain walk of the product form: when it stops, what
 * it gathers, and why allowing one parent link per category is enough to
 * decide whether the walk ever stops.
 */
module Inheritance {
  import opened Wrappers
  import opened Categories
  import opened ProductForm

  /** The category the loop moves to from `c`, if `c` has a parent that exists. */
  function Parent(categories: seq<Category>, c: Category): (r: Option<Category>)
  {
    if HasParent(c) then Find(categories, c.parent.value) else None
  }

  /** The category `k` steps up the chain from `c`. */
  function Ancestor(categories: seq<Category>, c: Category, k: nat): (r: Option<Category>)
    decreases k
  {
    if k == 0 then Some(c)
    else
      match Parent(categories, c)
      case None => None
      case Some(p) => Ancestor(categories, p, k - 1)
  }

  /** The chain from `c` comes back to a category it has already visited. */
  ghost predicate ChainRepeats(categories: seq<Category>, c: Category)
  {
    exists i: nat, j: nat :: i < j && Ancestor(categories, c, i).Some? && Ancestor(categories, c, i) == Ancestor(categories, c, j)
  }

  // ---------------------------------------------------------------------------
  // Fuel: once the walk has finished, more fuel changes nothing.

  lemma {:induction false} InheritedMonotone(categories: seq<Category>, c: Category, n: nat, m: nat)
    requires !Inherited(categories, c, n).Loops?
    requires n <= m
    ensures Inherited(categories, c, m) == Inherited(categories, c, n)
    decreases n
  {
    if HasParent(c) && n > 0 {
      match Find(categories, c.parent.value)
      case None =>
      case Some(p) =>
        InheritedMonotone(categories, p, n - 1, m - 1);
    }
  }

  // ---------------------------------------------------------------------------
  // Walking up the chain.

  /** A walk that runs out of fuel after `n` links has visited `n + 1`
      categories, each with a parent. */
  lemma {:induction false} LoopingWalkVisits(categories: seq<Category>, c: Category, n: nat)
    requires Inherited(categories, c, n).Loops?
    ensures forall k :: 0 <= k <= n ==> Ancestor(categories, c, k).Some? && HasParent(Ancestor(categories, c, k).value)
    decreases n
  {
    if n > 0 {
      var p := Find(categories, c.parent.value).value;
      LoopingWalkVisits(categories, p, n - 1);
      forall k | 1 <= k <= n
        ensures Ancestor(categories, c, k).Some? && HasParent(Ancestor(categories, c, k).value)
      {
        assert Ancestor(categories, c, k) == Ancestor(categories, p, k - 1);
      }
    }
  }

  /** Every category reached by following at least one link is in the list. */
  lemma {:induction false} AncestorIsListed(categories: seq<Category>, c: Category, k: nat)
    requires k >= 1
    requires Ancestor(categories, c, k).Some?
    ensures Ancestor(categories, c, k).value in categories
    decreases k
  {
    var p := Parent(categories, c).value;
    if k > 1 {
      AncestorIsListed(categories, p, k - 1);
    }
  }

  /** Going `i` steps and then `t` more is going `i + t` steps. */
  lemma {:induction false} AncestorShift(categories: seq<Category>, c: Category, i: nat, t: nat)
    requires Ancestor(categories, c, i).Some?
    ensures Ancestor(categories, Ancestor(categories, c, i).value, t) == Ancestor(categories, c, i + t)
    decreases i
  {
    if i > 0 {
      AncestorShift(categories, Parent(categories, c).value, i - 1, t);
    }
  }

  /** Every category strictly below an existing ancestor has a parent. */
  lemma {:induction false} BelowAncestorHasParent(categories: seq<Category>, c: Category, s: nat, t: nat)
    requires s < t
    requires Ancestor(categories, c, t).Some?
    ensures Ancestor(categories, c, s).Some? && HasParent(Ancestor(categories, c, s).value)
    decreases s
  {
    if s > 0 {
      BelowAncestorHasParent(categories, Parent(categories, c).value, s - 1, t - 1);
    }
  }

  /** If the walk from the `t`-th ancestor loops on the fuel left over, the
      walk from `c` loops too. */
  lemma {:induction false} LoopsThrough(categories: seq<Category>, c: Category, t: nat, n: nat)
    requires t <= n
    requires Ancestor(categories, c, t).Some?
    requires Inherited(categories, Ancestor(categories, c, t).value, n - t).Loops?
    ensures Inherited(categories, c, n).Loops?
    decreases t
  {
    if t > 0 {
      var p := Parent(categories, c).value;
      assert Ancestor(categories, c, t) == Ancestor(categories, p, t - 1);
      LoopsThrough(categories, p, t - 1, n - 1);
      assert HasParent(c) && Find(categories, c.parent.value) == Some(p);
      assert Inherited(categories, c, n) == Prepend(p.properties, Inherited(categories, p, n - 1));
    }
  }

  /** A walk whose fuel runs out before it reaches an existing ancestor loops. */
  lemma ShortWalkLoops(categories: seq<Category>, c: Category, n: nat, t: nat)
    requires n < t
    requires Ancestor(categories, c, t).Some?
    ensures Inherited(categories, c, n).Loops?
  {
    BelowAncestorHasParent(categories, c, n, t);
    LoopsThrough(categories, c, n, n);
  }

  /** A category that is its own `k`-th ancestor loops on every fuel. */
  lemma {:induction false} OnCycleLoops(categories: seq<Category>, d: Category, k: nat, n: nat)
    requires k >= 1
    requires Ancestor(categories, d, k) == Some(d)
    ensures Inherited(categories, d, n).Loops?
    decreases n
  {
    if n < k {
      ShortWalkLoops(categories, d, n, k);
    } else {
      OnCycleLoops(categories, d, k, n - k);
      LoopsThrough(categories, d, k, n);
    }
  }

  /** A chain that comes back to a visited category never ends. */
  lemma RepeatingChainLoops(categories: seq<Category>, c: Category, n: nat)
    requires ChainRepeats(categories, c)
    ensures Inherited(categories, c, n).Loops?
  {
    var i: nat, j: nat :| i < j && Ancestor(categories, c, i).Some? && Ancestor(categories, c, i) == Ancestor(categories, c, j);
    var d := Ancestor(categories, c, i).value;
    AncestorShift(categories, c, i, j - i);
    OnCycleLoops(categories, d, j - i, if n >= i then n - i else 0);
    if n >= i {
      LoopsThrough(categories, c, i, n);
    } else {
      ShortWalkLoops(categories, c, n, i);
    }
  }

  // ---------------------------------------------------------------------------
  // Pigeonhole: a walk that needs more links than there are categories repeats.

  /** The categories met in the first `n + 1` positions of the chain. */
  ghost function Visited(categories: seq<Category>, c: Category, n: nat): set<Category>
    decreases n
  {
    (if n == 0 then {} else Visited(categories, c, n - 1))
      + (match Ancestor(categories, c, n) case Some(a) => {a} case None => {})
  }

  lemma {:induction false} VisitedAreAncestors(categories: seq<Category>, c: Category, n: nat, a: Category)
    requires a in Visited(categories, c, n)
    ensures exists k :: 0 <= k <= n && Ancestor(categories, c, k) == Some(a)
    decreases n
  {
    if Ancestor(categories, c, n) != Some(a) {
      VisitedAreAncestors(categories, c, n - 1, a);
    }
  }

  lemma {:induction false} VisitedAreListed(categories: seq<Category>, c: Category, n: nat)
    requires c in categories
    ensures Visited(categories, c, n) <= set x | x in categories
    decreases n
  {
    if n > 0 {
      VisitedAreListed(categories, c, n - 1);
      if Ancestor(categories, c, n).Some? {
        AncestorIsListed(categories, c, n);
      }
    }
  }

  lemma {:induction false} DistinctVisitedCount(categories: seq<Category>, c: Category, n: nat)
    requires forall k :: 0 <= k <= n ==> Ancestor(categories, c, k).Some?
    requires !ChainRepeats(categories, c)
    ensures |Visited(categories, c, n)| == n + 1
    decreases n
  {
    if n > 0 {
      DistinctVisitedCount(categories, c, n - 1);
      var a := Ancestor(categories, c, n).value;
      if a in Visited(categories, c, n - 1) {
        VisitedAreAncestors(categories, c, n - 1, a);
        assert false;
      }
    }
  }

  lemma {:induction false} ListedSetSize<T>(s: seq<T>)
    ensures |set x | x in s| <= |s|
  {
    if s != [] {
      ListedSetSize(s[1..]);
      assert (set x | x in s) == {s[0]} + (set x | x in s[1..]);
    }
  }

  /** A walk still going after one link per category has a repeating chain. */
  lemma Pigeonhole(categories: seq<Category>, c: Category)
    requires c in categories
    requires Inherited(categories, c, |categories|).Loops?
    ensures ChainRepeats(categories, c)
  {
    var n := |categories|;
    if !ChainRepeats(categories, c) {
      LoopingWalkVisits(categories, c, n);
      DistinctVisitedCount(categories, c, n);
      VisitedAreListed(categories, c, n);
      ListedSetSize(categories);
      var listed := set x | x in categories;
      assert |Visited(categories, c, n)| <= |listed| by {
        SubsetSize(Visited(categories, c, n), listed);
      }
      assert false;
    }
  }

  lemma {:induction false} SubsetSize<T>(a: set<T>, b: set<T>)
    requires a <= b
    ensures |a| <= |b|
  {
    assert b == a + (b - a);
  }

  // ---------------------------------------------------------------------------
  // What the walk comes to.

  /** `Resolve` is what the loop computes for any allowance of parent links
      large enough to finish; when it says `Loops`, no allowance finishes. */
  lemma ResolveIsExact(categories: seq<Category>, category: string, n: nat)
    ensures Resolve(categories, category).Loops? ==> ResolveWithin(categories, category, n).Loops?
    ensures !ResolveWithin(categories, category, n).Loops? ==>
      ResolveWithin(categories, category, n) == Resolve(categories, category)
    ensures n >= |categories| ==> ResolveWithin(categories, category, n) == Resolve(categories, category)
  {
    if |categories| > 0 && category != "" {
      match Find(categories, category)
      case None =>
      case Some(c) =>
        var big := Inherited(categories, c, |categories|);
        if big.Loops? {
          Pigeonhole(categories, c);
          RepeatingChainLoops(categories, c, n);
        } else if n >= |categories| {
          InheritedMonotone(categories, c, |categories|, n);
        } else if !Inherited(categories, c, n).Loops? {
          InheritedMonotone(categories, c, n, |categories|);
        }
    }
  }

  /** The walk from a selected category that exists never ends exactly when
      its parent chain comes back to a category it has already visited. */
  lemma LoopsIffChainRepeats(categories: seq<Category>, category: string)
    requires |categories| > 0 && category != ""
    requires Find(categories, category).Some?
    ensures Resolve(categories, category).Loops? <==> ChainRepeats(categories, Find(categories, category).value)
  {
    var c := Find(categories, category).value;
    if Resolve(categories, category).Loops? {
      Pigeonhole(categories, c);
    }
    if ChainRepeats(categories, c) {
      RepeatingChainLoops(categories, c, |categories|);
    }
  }

  /** With no categories loaded, or none selected, there is nothing to fill. */
  lemma NothingSelected(categories: seq<Category>, category: string)
    requires |categories| == 0 || category == ""
    ensures Resolve(categories, category) == Resolved([])
  {
  }

  /** A selected id that names no category makes the first spread throw. */
  lemma UnknownCategoryThrows(categories: seq<Category>, category: string)
    requires |categories| > 0 && category != ""
    requires forall i :: 0 <= i < |categories| ==> categories[i].id != category
    ensures Resolve(categories, category) == SpreadOfUndefined(category)
  {
    FindIsFirstMatch(categories, category);
  }

  /** A finished walk starts with the own properties, in stored order, of the
      first category carrying the selected id. */
  lemma OwnPropertiesFirst(categories: seq<Category>, category: string)
    requires |categories| > 0 && category != ""
    requires Resolve(categories, category).Resolved?
    ensures exists i :: (FirstWithId(categories, category, i)
      && categories[i].properties <= Resolve(categories, category).properties)
  {
    FindIsFirstMatch(categories, category);
    var c := Find(categories, category).value;
    var i :| FirstWithId(categories, category, i) && categories[i] == c;
    var rest := Inherited(categories, c, |categories|);
    assert Resolve(categories, category).properties == c.properties + rest.properties;
  }

  /** A category without a parent contributes exactly its own properties. */
  lemma RootCategoryOwnProperties(categories: seq<Category>, i: int)
    requires 0 <= i < |categories| && FirstWithId(categories, categories[i].id, i)
    requires categories[i].id != ""
    requires !HasParent(categories[i])
    ensures Resolve(categories, categories[i].id) == Resolved(categories[i].properties)
  {
    FindIsFirstMatch(categories, categories[i].id);
    var c := Find(categories, categories[i].id).value;
    var k :| FirstWithId(categories, categories[i].id, k) && categories[k] == c;
    assert k == i;
    assert c.properties + [] == c.properties;
  }

  /** A parent id that names no category makes the spread in the loop throw,
      after the child's own properties have been gathered. */
  lemma MissingParentThrows(categories: seq<Category>, category: string, child: Category)
    requires category != ""
    requires Find(categories, category) == Some(child)
    requires HasParent(child)
    requires Find(categories, child.parent.value).None?
    ensures Resolve(categories, category) == SpreadOfUndefined(child.parent.value)
  {
    assert ResolveWithin(categories, category, 1) == SpreadOfUndefined(child.parent.value);
    ResolveIsExact(categories, category, 1);
  }

  /** For a chain A -> B -> C where C has no parent, the list is A's properties,
      then B's, then C's, and its length is the sum of the three counts. */
  lemma ThreeLevelChain(categories: seq<Category>, a: Category, b: Category, c: Category)
    requires a.id != "" && Find(categories, a.id) == Some(a)
    requires HasParent(a) && Find(categories, a.parent.value) == Some(b)
    requires HasParent(b) && Find(categories, b.parent.value) == Some(c)
    requires !HasParent(c)
    ensures Resolve(categories, a.id) == Resolved(a.properties + b.properties + c.properties)
    ensures |Resolve(categories, a.id).properties| == |a.properties| + |b.properties| + |c.properties|
  {
    assert Inherited(categories, c, 0) == Resolved([]);
    assert Inherited(categories, b, 1) == Resolved(c.properties + []);
    assert Inherited(categories, a, 2) == Resolved(b.properties + (c.properties + []));
    assert a.properties + (b.properties + (c.properties + [])) == a.properties + b.properties + c.properties;
    ResolveIsExact(categories, a.id, 2);
  }

  /** Two categories that name each other as parent make the walk loop for
      ever, whatever the allowance of links. */
  lemma TwoCycleLoops(categories: seq<Category>, a: Category, b: Category, n: nat)
    requires a.id != "" && Find(categories, a.id) == Some(a)
    requires HasParent(a) && Find(categories, a.parent.value) == Some(b)
    requires HasParent(b) && b.parent.value == a.id
    ensures ResolveWithin(categories, a.id, n).Loops?
  {
    assert Ancestor(categories, a, 2) == Some(a) by {
      assert Ancestor(categories, a, 1) == Ancestor(categories, b, 0);
      assert Ancestor(categories, b, 1) == Ancestor(categories, a, 0);
    }
    assert Ancestor(categories, a, 0).Some?;
    RepeatingChainLoops(categories, a, n);
  }

  /** A two-level catalogue: "Sativa-Flower" with property Type under "Flower"
      with property Grade gives Type, then Grade. */
  lemma SativaFlowerExample()
    ensures
      var grade := StoredProperty("g1", "Grade", ["AA", "AAA"]);
      var kind := StoredProperty("t1", "Type", ["Sativa"]);
      var flower := Category("Flower", "Flower", None, [grade]);
      var sativa := Category("Sativa-Flower", "Sativa Flower", Some("Flower"), [kind]);
      Resolve([flower, sativa], "Sativa-Flower") == Resolved([kind, grade])
  {
    var grade := StoredProperty("g1", "Grade", ["AA", "AAA"]);
    var kind := StoredProperty("t1", "Type", ["Sativa"]);
    var flower := Category("Flower", "Flower", None, [grade]);
    var sativa := Category("Sativa-Flower", "Sativa Flower", Some("Flower"), [kind]);
    var cats := [flower, sativa];
    assert "Flower" != "Sativa-Flower" by { assert "Flower"[1] != "Sativa-Flower"[1]; }
    assert Find(cats, "Sativa-Flower") == Some(sativa);
    assert Find(cats, "Flower") == Some(flower);
    assert HasParent(sativa) && !HasParent(flower);
    assert Inherited(cats, flower, 1) == Resolved([]);
    assert Inherited(cats, sativa, 2) == Resolved([grade] + []);
    assert ResolveWithin(cats, "Sativa-Flower", 2) == Resolved([kind] + ([grade] + []));
    assert [kind] + ([grade] + []) == [kind, grade];
  }
}
