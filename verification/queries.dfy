/** The SELECT statements the routes issue. None of them has an ORDER BY;
    the table scan returns rows in ascending id order, which is the "query
    order" every route relies on. */
module Queries {
  import opened Records

  ghost predicate Increasing(s: seq<nat>)
  {
    forall i, j :: 0 <= i < j < |s| ==> s[i] < s[j]
  }

  /** The ids of `keys` below `bound`, in ascending order: what a full scan
      of a table whose ids are all below `bound` returns. */
  function Ascending(keys: set<nat>, bound: nat): (r: seq<nat>)
    ensures forall id :: id in r <==> id in keys && id < bound
  {
    if bound == 0 then []
    else Ascending(keys, bound - 1) + (if bound - 1 in keys then [bound - 1] else [])
  }

  /** A scan lists ids in strictly ascending order. */
  lemma {:induction false} AscendingIncreases(keys: set<nat>, bound: nat)
    ensures Increasing(Ascending(keys, bound))
  {
    if bound > 0 {
      AscendingIncreases(keys, bound - 1);
      var below := Ascending(keys, bound - 1);
      var r := Ascending(keys, bound);
      forall i, j | 0 <= i < j < |r| ensures r[i] < r[j] {
        assert r[i] == below[i] && below[i] in below;
        if j < |below| {
          assert r[j] == below[j];
        }
      }
    }
  }

  /** The ids of `ids` whose project lies in category `c`:
      `WHERE Project.category_id == c`. Its order is stated by
      `OfCategoryIncreases` for an ascending scan. */
  function OfCategory(projects: map<nat, Project>, ids: seq<nat>, c: nat): (r: seq<nat>)
    requires forall id :: id in ids ==> id in projects
    ensures |r| <= |ids|
    ensures forall id :: id in r <==> id in ids && projects[id].categoryId == c
  {
    if ids == [] then []
    else
      var rest := OfCategory(projects, ids[1..], c);
      if projects[ids[0]].categoryId == c then [ids[0]] + rest else rest
  }

  /** Filtering keeps ascending order. */
  lemma {:induction false} OfCategoryIncreases(projects: map<nat, Project>, ids: seq<nat>, c: nat)
    requires forall id :: id in ids ==> id in projects
    requires Increasing(ids)
    ensures Increasing(OfCategory(projects, ids, c))
  {
    if ids != [] {
      OfCategoryIncreases(projects, ids[1..], c);
      var rest := OfCategory(projects, ids[1..], c);
      var r := OfCategory(projects, ids, c);
      if projects[ids[0]].categoryId == c {
        forall i, j | 0 <= i < j < |r| ensures r[i] < r[j] {
          assert r[j] == rest[j - 1] && rest[j - 1] in ids[1..];
          if i == 0 {
            HeadBelowTail(ids, rest[j - 1]);
          } else {
            assert r[i] == rest[i - 1];
          }
        }
      }
    }
  }

  lemma HeadBelowTail(ids: seq<nat>, x: nat)
    requires Increasing(ids) && ids != [] && x in ids[1..]
    ensures ids[0] < x
  {
    var k :| 0 <= k < |ids[1..]| && ids[1..][k] == x;
    assert ids[k + 1] == x;
  }

  /** `select(Project).where(Project.category_id == c)` on the projects table:
      the projects of category `c`, in query order. */
  function ProjectsOf(projects: map<nat, Project>, bound: nat, c: nat): (r: seq<nat>)
    ensures forall id :: id in r <==> id in projects && id < bound && projects[id].categoryId == c
  {
    OfCategory(projects, Ascending(projects.Keys, bound), c)
  }

  /** A category's projects are listed in ascending id order. */
  lemma ProjectsOfIncreases(projects: map<nat, Project>, bound: nat, c: nat)
    ensures Increasing(ProjectsOf(projects, bound, c))
  {
    AscendingIncreases(projects.Keys, bound);
    OfCategoryIncreases(projects, Ascending(projects.Keys, bound), c);
  }

  /** The first id of `ids`, in their order, whose row satisfies `p`: the
      `.scalar()` of a filtered select. */
  function FirstMatch<T>(table: map<nat, T>, ids: seq<nat>, p: T -> bool): (r: Option<nat>)
    requires forall id :: id in ids ==> id in table
    ensures r.None? <==> forall id :: id in ids ==> !p(table[id])
    ensures r.Some? ==> r.value in table && p(table[r.value])
    ensures r.Some? ==> exists k :: 0 <= k < |ids| && ids[k] == r.value && forall j :: 0 <= j < k ==> !p(table[ids[j]])
  {
    if ids == [] then None
    else if p(table[ids[0]]) then Some(ids[0])
    else
      var r := FirstMatch(table, ids[1..], p);
      if r.Some? then
        ghost var k :| 0 <= k < |ids[1..]| && ids[1..][k] == r.value && forall j :: 0 <= j < k ==> !p(table[ids[1..][j]]);
        assert ids[k + 1] == r.value;
        r
      else r
  }

  /** `select(User).where(User.email == email).scalar()`. */
  function UserByEmail(users: map<nat, User>, bound: nat, email: string): (r: Option<nat>)
    ensures r.None? <==> forall id :: id in users && id < bound ==> users[id].email != email
    ensures r.Some? ==> r.value in users && r.value < bound && users[r.value].email == email
  {
    var ids := Ascending(users.Keys, bound);
    var r := FirstMatch(users, ids, (u: User) => u.email == email);
    assert r.None? <==> forall id :: id in ids ==> users[id].email != email;
    r
  }

  /** `select(Project).where(Project.title == title).scalar()`. */
  function ProjectByTitle(projects: map<nat, Project>, bound: nat, title: string): (r: Option<nat>)
    ensures r.None? <==> forall id :: id in projects && id < bound ==> projects[id].title != title
    ensures r.Some? ==> r.value in projects && r.value < bound && projects[r.value].title == title
  {
    var ids := Ascending(projects.Keys, bound);
    var r := FirstMatch(projects, ids, (p: Project) => p.title == title);
    assert r.None? <==> forall id :: id in ids ==> projects[id].title != title;
    r
  }

  /** The database's UNIQUE constraint on a column, here on users' emails
      and on projects' titles. */
  ghost predicate EmailsUnique(users: map<nat, User>)
  {
    forall i, j :: i in users && j in users && users[i].email == users[j].email ==> i == j
  }

  ghost predicate TitlesUnique(projects: map<nat, Project>)
  {
    forall i, j :: i in projects && j in projects && projects[i].title == projects[j].title ==> i == j
  }

  /** With unique titles, looking a title up finds the one project that has it. */
  lemma TitleLookupFindsOwner(projects: map<nat, Project>, bound: nat, id: nat)
    requires TitlesUnique(projects)
    requires id in projects && id < bound
    ensures ProjectByTitle(projects, bound, projects[id].title) == Some(id)
  {
  }

  /** With unique emails, looking an email up finds the one user that has it. */
  lemma EmailLookupFindsOwner(users: map<nat, User>, bound: nat, id: nat)
    requires EmailsUnique(users)
    requires id in users && id < bound
    ensures UserByEmail(users, bound, users[id].email) == Some(id)
  {
  }
}
