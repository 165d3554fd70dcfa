/**
 * Display names: the full name of an asset category (its path from the
 * top, at most six levels deep) and the name an asset is listed under.
 */
module Names {
  import opened Wrappers
  import opened Records

  type CategoryId = nat

  /** `account.asset.category`: a name and an optional parent category. */
  datatype Category = Category(name: string, parent: Option<CategoryId>)

  /** Every parent a category names exists. Parents may form a cycle: nothing rules it out. */
  predicate Closed(cats: map<CategoryId, Category>) {
    forall id | id in cats :: cats[id].parent.Some? ==> cats[id].parent.value in cats
  }

  /** The separator between the levels of a full name. */
  const Separator: string := " / "

  /** What stands for the levels above the depth limit. */
  const Elided: string := "..."

  /** The depth limit `_get_full_name` passes. */
  const FullNameLevels: int := 6

  /**
   * `_get_one_full_name`: the parent's full name, one level shallower, then
   * the separator and the category's own name; `...` once the level runs out.
   */
  function FullName(cats: map<CategoryId, Category>, id: CategoryId, level: int): (r: string)
    requires Closed(cats) && id in cats
    ensures level > 0 ==> |r| >= |cats[id].name| && r[|r| - |cats[id].name|..] == cats[id].name
    decreases level
  {
    if level <= 0 then Elided
    else
      var c := cats[id];
      if c.parent.Some? then FullName(cats, c.parent.value, level - 1) + Separator + c.name
      else c.name
  }

  /** `_get_full_name` for one category: the full name with the default depth. */
  function CompleteName(cats: map<CategoryId, Category>, id: CategoryId): (r: string)
    requires Closed(cats) && id in cats
    ensures |r| >= |cats[id].name| && r[|r| - |cats[id].name|..] == cats[id].name
  {
    FullName(cats, id, FullNameLevels)
  }

  /** The category and its ancestors, nearest first, at most n of them. */
  function Ancestry(cats: map<CategoryId, Category>, id: CategoryId, n: int): (r: seq<CategoryId>)
    requires Closed(cats) && id in cats
    ensures |r| <= if n < 0 then 0 else n
    ensures n > 0 ==> r != [] && r[0] == id
    ensures forall c <- r :: c in cats
    decreases n
  {
    if n <= 0 then []
    else [id] + (if cats[id].parent.Some? then Ancestry(cats, cats[id].parent.value, n - 1) else [])
  }

  /** The walk up from `id` is cut by the limit n before it reaches a top-level category. */
  predicate Truncated(cats: map<CategoryId, Category>, id: CategoryId, n: int)
    requires Closed(cats) && id in cats
  {
    var a := Ancestry(cats, id, n);
    n <= 0 || (|a| == n && cats[a[|a| - 1]].parent.Some?)
  }

  /** The names along the ancestry, top first, behind `...` when the walk was cut. */
  function Segments(cats: map<CategoryId, Category>, id: CategoryId, n: int): (r: seq<string>)
    requires Closed(cats) && id in cats
  {
    var a := Ancestry(cats, id, n);
    (if Truncated(cats, id, n) then [Elided] else [])
    + seq(|a|, i requires 0 <= i < |a| => cats[a[|a| - 1 - i]].name)
  }

  /** The parts joined with the separator. */
  function Join(parts: seq<string>): string {
    if parts == [] then ""
    else if |parts| == 1 then parts[0]
    else Join(parts[..|parts| - 1]) + Separator + parts[|parts| - 1]
  }

  /** The path of a category has at most `level` names, plus `...` when cut. */
  lemma {:induction false} SegmentsBound(cats: map<CategoryId, Category>, id: CategoryId, level: int)
    requires Closed(cats) && id in cats
    ensures 1 <= |Segments(cats, id, level)| <= if level <= 0 then 1 else level + 1
    ensures level > 0 ==> Segments(cats, id, level)[|Segments(cats, id, level)| - 1] == cats[id].name
  {
  }

  /** One level up: a category's path is its parent's path, one level shallower, and its own name. */
  lemma {:induction false} SegmentsStep(cats: map<CategoryId, Category>, id: CategoryId, level: int)
    requires Closed(cats) && id in cats && level > 0 && cats[id].parent.Some?
    ensures Segments(cats, id, level) == Segments(cats, cats[id].parent.value, level - 1) + [cats[id].name]
  {
    var p := cats[id].parent.value;
    var a := Ancestry(cats, id, level);
    var pa := Ancestry(cats, p, level - 1);
    assert a == [id] + pa;
    assert Truncated(cats, id, level) == Truncated(cats, p, level - 1) by {
      if level - 1 > 0 {
        assert a[|a| - 1] == pa[|pa| - 1];
      }
    }
  }

  lemma {:induction false} JoinSnoc(parts: seq<string>, x: string)
    requires parts != []
    ensures Join(parts + [x]) == Join(parts) + Separator + x
  {
    assert (parts + [x])[..|parts|] == parts;
  }

  /**
   * The full name is the path from the top category down to this one, its
   * names joined by " / ", with the levels beyond the limit replaced by a
   * single `...`.
   */
  lemma {:induction false} FullNameIsPath(cats: map<CategoryId, Category>, id: CategoryId, level: int)
    requires Closed(cats) && id in cats
    ensures FullName(cats, id, level) == Join(Segments(cats, id, level))
    decreases level
  {
    if level > 0 {
      var c := cats[id];
      if c.parent.Some? {
        var p := c.parent.value;
        FullNameIsPath(cats, p, level - 1);
        SegmentsStep(cats, id, level);
        SegmentsBound(cats, p, level - 1);
        JoinSnoc(Segments(cats, p, level - 1), c.name);
      } else {
        assert Ancestry(cats, id, level) == [id];
        assert Segments(cats, id, level) == [c.name];
      }
    }
  }

  /**
   * The name an asset is listed under (`name_get`): its code, a space and
   * its name when it has a code, its name alone otherwise. The name can
   * always be read back from the end, and the code from the start.
   */
  function DisplayName(name: string, code: string): (r: string)
    ensures |r| >= |name| && r[|r| - |name|..] == name
    ensures code == [] ==> |r| == |name|
    ensures code != [] ==> |r| == |code| + 1 + |name| && r[..|code|] == code && r[|code|] == ' '
  {
    if code != [] then code + " " + name else name
  }

  /** `name_get`: one (id, display name) pair per id, in order; no ids give no pairs. */
  method NameGet(assets: map<AssetId, Asset>, ids: seq<AssetId>) returns (r: seq<(AssetId, string)>)
    requires forall id <- ids :: id in assets
    ensures |r| == |ids|
    ensures forall k :: 0 <= k < |r| ==>
      r[k].0 == ids[k] && r[k].1 == DisplayName(assets[ids[k]].name, assets[ids[k]].code)
  {
    r := [];
    if ids == [] {
      return;
    }
    var k := 0;
    while k < |ids|
      invariant 0 <= k <= |ids| && |r| == k
      invariant forall j :: 0 <= j < k ==>
        r[j].0 == ids[j] && r[j].1 == DisplayName(assets[ids[j]].name, assets[ids[j]].code)
    {
      var a := assets[ids[k]];
      var name := a.name;
      if a.code != [] {
        name := a.code + " " + name;
      }
      r := r + [(ids[k], name)];
      k := k + 1;
    }
  }
}
