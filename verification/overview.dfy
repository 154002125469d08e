/** The "overview" of the home page: for every category, in the order the
    categories are given, none, the only one, or the first two of its projects
    in query order. Nothing in it is random. */
module Overview {
  import opened Records
  import opened Queries

  function Min(a: nat, b: nat): nat { if a < b then a else b }

  /** What one category contributes, by the number of its projects. */
  function Featured(q: seq<nat>): (r: seq<nat>)
    ensures r <= q && |r| == Min(|q|, 2)
  {
    if |q| == 0 then []
    else if |q| == 1 then [q[0]]
    else [q[0], q[1]]
  }

  /** The overview of the categories `cats`, category after category. Every
      entry is a stored project of one of the given categories. */
  function OverviewOf(projects: map<nat, Project>, bound: nat, cats: seq<nat>): (r: seq<nat>)
    ensures forall id :: id in r ==> id in projects && id < bound && projects[id].categoryId in cats
  {
    if cats == [] then []
    else
      var last := |cats| - 1;
      var head := OverviewOf(projects, bound, cats[..last]);
      var q := ProjectsOf(projects, bound, cats[last]);
      assert forall id :: id in head ==> projects[id].categoryId in cats[..last];
      assert forall id :: id in Featured(q) ==> id in q;
      head + Featured(q)
  }

  /** One more category extends the overview by its featured projects. */
  lemma OverviewStep(projects: map<nat, Project>, bound: nat, cats: seq<nat>, k: nat)
    requires k < |cats|
    ensures OverviewOf(projects, bound, cats[..k + 1])
      == OverviewOf(projects, bound, cats[..k]) + Featured(ProjectsOf(projects, bound, cats[k]))
  {
    assert cats[..k + 1][..k] == cats[..k];
  }

  ghost predicate Distinct(cats: seq<nat>)
  {
    forall i, j :: 0 <= i < j < |cats| ==> cats[i] != cats[j]
  }

  /** The index of category `c` in `cats`. */
  function Position(cats: seq<nat>, c: nat): (k: nat)
    requires c in cats
    ensures k < |cats| && cats[k] == c
    ensures forall j :: 0 <= j < k ==> cats[j] != c
  {
    if cats[0] == c then 0 else 1 + Position(cats[1..], c)
  }

  /** The overview holds at most two projects per category. */
  lemma {:induction false} OverviewSize(projects: map<nat, Project>, bound: nat, cats: seq<nat>)
    ensures |OverviewOf(projects, bound, cats)| <= 2 * |cats|
  {
    if cats != [] {
      OverviewSize(projects, bound, cats[..|cats| - 1]);
    }
  }

  /** Filtering keeps concatenation. */
  lemma {:induction false} OfCategoryAppend(projects: map<nat, Project>, a: seq<nat>, b: seq<nat>, c: nat)
    requires forall id :: id in a + b ==> id in projects
    ensures OfCategory(projects, a + b, c) == OfCategory(projects, a, c) + OfCategory(projects, b, c)
  {
    if a == [] {
      assert a + b == b;
    } else {
      var ab := a + b;
      assert ab[0] == a[0] && ab[1..] == a[1..] + b;
      OfCategoryAppend(projects, a[1..], b, c);
      var rest := OfCategory(projects, a[1..], c) + OfCategory(projects, b, c);
      assert OfCategory(projects, ab, c) == if projects[a[0]].categoryId == c then [a[0]] + rest else rest;
      assert OfCategory(projects, a, c) + OfCategory(projects, b, c)
        == if projects[a[0]].categoryId == c then [a[0]] + rest else rest;
    }
  }

  /** Filtering a list of projects that all lie in category `d` by category
      `c` keeps all of them when `c == d` and none otherwise. */
  lemma {:induction false} OfCategoryUniform(projects: map<nat, Project>, ids: seq<nat>, c: nat, d: nat)
    requires forall id :: id in ids ==> id in projects && projects[id].categoryId == d
    ensures OfCategory(projects, ids, c) == if c == d then ids else []
  {
    if ids != [] {
      assert ids[1..] + [] == ids[1..];
      OfCategoryUniform(projects, ids[1..], c, d);
      if c == d {
        assert [ids[0]] + ids[1..] == ids;
      }
    }
  }

  /** The overview rule, category by category: the entries of the overview
      that belong to a category `c` listed once are none when `c` has no
      project, that project when it has one, and its first two in query
      order when it has more. */
  lemma {:induction false} OverviewPerCategory(projects: map<nat, Project>, bound: nat, cats: seq<nat>, c: nat)
    requires Distinct(cats) && c in cats
    ensures
      var q := ProjectsOf(projects, bound, c);
      var mine := OfCategory(projects, OverviewOf(projects, bound, cats), c);
      && (|q| == 0 ==> mine == [])
      && (|q| == 1 ==> mine == [q[0]])
      && (|q| >= 2 ==> mine == [q[0], q[1]])
  {
    OverviewOfCategory(projects, bound, cats, c);
  }

  lemma {:induction false} OverviewOfCategory(projects: map<nat, Project>, bound: nat, cats: seq<nat>, c: nat)
    requires Distinct(cats)
    ensures OfCategory(projects, OverviewOf(projects, bound, cats), c)
        == if c in cats then Featured(ProjectsOf(projects, bound, c)) else []
  {
    if cats != [] {
      var last := |cats| - 1;
      var init := cats[..last];
      var head := OverviewOf(projects, bound, init);
      var f := Featured(ProjectsOf(projects, bound, cats[last]));
      assert OverviewOf(projects, bound, cats) == head + f;
      assert Distinct(init) by {
        forall i, j | 0 <= i < j < |init| ensures init[i] != init[j] {
          assert init[i] == cats[i] && init[j] == cats[j];
        }
      }
      OverviewOfCategory(projects, bound, init, c);
      OfCategoryAppend(projects, head, f, c);
      OfCategoryUniform(projects, f, c, cats[last]);
      assert cats == init + [cats[last]];
      if c == cats[last] {
        assert c !in init;
      }
    }
  }

  /** The position of a project's category in `cats`; `|cats|` for a
      project outside them. */
  ghost function Rank(projects: map<nat, Project>, cats: seq<nat>, id: nat): nat
  {
    if id in projects && projects[id].categoryId in cats then Position(cats, projects[id].categoryId) else |cats|
  }

  /** The entries of `r` come category by category, in the order of `cats`. */
  ghost predicate InCategoryOrder(projects: map<nat, Project>, cats: seq<nat>, r: seq<nat>)
  {
    forall i, j :: 0 <= i < j < |r| ==> Rank(projects, cats, r[i]) <= Rank(projects, cats, r[j])
  }

  /** The overview is grouped by category, the groups in the order the
      categories are given. */
  lemma {:induction false} OverviewGrouped(projects: map<nat, Project>, bound: nat, cats: seq<nat>)
    requires Distinct(cats)
    ensures InCategoryOrder(projects, cats, OverviewOf(projects, bound, cats))
  {
    if cats != [] {
      var last := |cats| - 1;
      var init := cats[..last];
      OverviewGrouped(projects, bound, init);
      var head := OverviewOf(projects, bound, init);
      var q := ProjectsOf(projects, bound, cats[last]);
      var tail := Featured(q);
      var r := OverviewOf(projects, bound, cats);
      assert r == head + tail;
      forall id | id in head
        ensures Rank(projects, cats, id) == Rank(projects, init, id) < last
      {
        PositionInPrefix(cats, last, projects[id].categoryId);
      }
      forall id | id in tail
        ensures Rank(projects, cats, id) == last
      {
        assert id in q;
      }
      forall i, j | 0 <= i < j < |r|
        ensures Rank(projects, cats, r[i]) <= Rank(projects, cats, r[j])
      {
        if j < |head| {
          assert r[i] == head[i] && r[j] == head[j];
          assert head[i] in head && head[j] in head;
          assert Rank(projects, init, head[i]) <= Rank(projects, init, head[j]);
        } else if i < |head| {
          assert r[i] == head[i] && head[i] in head;
          assert r[j] == tail[j - |head|] && r[j] in tail;
        } else {
          assert r[i] == tail[i - |head|] && r[i] in tail;
          assert r[j] == tail[j - |head|] && r[j] in tail;
        }
      }
    }
  }

  /** In a list without repetitions, a category found before index `n` has
      the same position in the first `n` entries. */
  lemma {:induction false} PositionInPrefix(cats: seq<nat>, n: nat, c: nat)
    requires Distinct(cats) && n <= |cats| && c in cats[..n]
    ensures Position(cats, c) == Position(cats[..n], c) < n
  {
    var k := Position(cats[..n], c);
    var m := Position(cats, c);
    assert cats[..n][k] == cats[k];
  }
}
