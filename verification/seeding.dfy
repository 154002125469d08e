/** The rows the home page creates on first use: the four fixed categories
    and the administrator account. */
module Seeding {
  import opened Records

  const PythonCategory := Category(
    "Python",
    "Python projects in some fields like webdesign, scrapping, scripts, etc.",
    "assets/img/python-logo.png",
    "assets/img/python-bg.png")
  const FrontEndCategory := Category(
    "FrontEnd",
    "FrontEnd projects where I just take care of the interface the user see.",
    "assets/img/frontend-icon.png",
    "assets/img/frontend-bg.jpg")
  const FullStackCategory := Category(
    "FullStack",
    "FullStack projects where I take care of the FrontEnd and also to stored the data generated.",
    "assets/img/fullstack-icon.png",
    "assets/img/fullstack-bg.jpg")
  const RoboticsCategory := Category(
    "Robotics",
    "Robotics projects where I apply Cinematic and Dynamic",
    "assets/img/robotics-icon.png",
    "assets/img/robotics-bg.jpg")

  const AdminName := "Daniel Solis"

  ghost function Names(categories: map<nat, Category>): set<string>
  {
    set id | id in categories :: categories[id].name
  }

  /** The categories table after the four seed categories are inserted, one
      after the other, with ids `next` to `next + 3`; the rows already there
      stay as they were. */
  function WithSeedCategories(categories: map<nat, Category>, next: nat): (r: map<nat, Category>)
    requires forall id :: id in categories ==> id < next
    ensures r.Keys == categories.Keys + {next, next + 1, next + 2, next + 3}
    ensures forall id :: id in categories ==> r[id] == categories[id]
  {
    categories[next := PythonCategory][next + 1 := FrontEndCategory]
      [next + 2 := FullStackCategory][next + 3 := RoboticsCategory]
  }

  /** Seeding allocates the next four ids and keeps every row already there. */
  lemma SeedKeepsTopId(categories: map<nat, Category>, next: nat)
    requires TopId(categories, next)
    ensures TopId(WithSeedCategories(categories, next), next + 4)
    ensures categories.Keys <= WithSeedCategories(categories, next).Keys
  {
  }

  /** The seed categories are named Python, FrontEnd, FullStack and Robotics. */
  lemma SeedCategoryNames(categories: map<nat, Category>, next: nat)
    requires forall id :: id in categories ==> id < next
    ensures Names(WithSeedCategories(categories, next)) == Names(categories) + {"Python", "FrontEnd", "FullStack", "Robotics"}
  {
    var r1 := categories[next := PythonCategory];
    var r2 := r1[next + 1 := FrontEndCategory];
    var r3 := r2[next + 2 := FullStackCategory];
    assert WithSeedCategories(categories, next) == r3[next + 3 := RoboticsCategory];
    assert next !in categories && next + 1 !in r1 && next + 2 !in r2 && next + 3 !in r3;
    NamesAdd(categories, next, PythonCategory);
    NamesAdd(r1, next + 1, FrontEndCategory);
    NamesAdd(r2, next + 2, FullStackCategory);
    NamesAdd(r3, next + 3, RoboticsCategory);
    AddFour(Names(categories), PythonCategory.name, FrontEndCategory.name, FullStackCategory.name, RoboticsCategory.name);
  }

  lemma AddFour<T>(s: set<T>, a: T, b: T, c: T, d: T)
    ensures s + {a} + {b} + {c} + {d} == s + {a, b, c, d}
  {
  }

  /** The seeding step adds exactly four rows. */
  lemma SeedCategoriesCount(categories: map<nat, Category>, next: nat)
    requires forall id :: id in categories ==> id < next
    ensures |WithSeedCategories(categories, next)| == |categories| + 4
  {
    var r1 := categories[next := PythonCategory];
    var r2 := r1[next + 1 := FrontEndCategory];
    var r3 := r2[next + 2 := FullStackCategory];
    assert next + 1 !in r1 && next + 2 !in r2 && next + 3 !in r3;
  }

  /** Inserting a row under a new id adds its name to the names. */
  lemma NamesAdd(categories: map<nat, Category>, id: nat, c: Category)
    requires id !in categories
    ensures Names(categories[id := c]) == Names(categories) + {c.name}
  {
    var r := categories[id := c];
    forall n | n in Names(r) ensures n in Names(categories) + {c.name} {
      var k :| k in r && r[k].name == n;
      if k != id { assert n in Names(categories); }
    }
    forall n | n in Names(categories) ensures n in Names(r) {
      var k :| k in categories && categories[k].name == n;
      assert r[k].name == n;
    }
    assert c.name == r[id].name;
  }

  /** The categories table after the home page's seeding step: seeded only
      when it was empty. */
  function SeededCategories(categories: map<nat, Category>, next: nat): (r: map<nat, Category>)
    requires forall id :: id in categories ==> id < next
    ensures |categories| == 0 ==> |r| == 4 && r.Keys == {next, next + 1, next + 2, next + 3}
    ensures |categories| != 0 ==> r == categories
  {
    if |categories| == 0 then
      SeedCategoriesCount(categories, next);
      WithSeedCategories(categories, next)
    else categories
  }

  /** The users table after the home page's seeding step: one administrator
      with the configured email and password hash, only when it was empty. */
  function SeededUsers(users: map<nat, User>, next: nat, email: string, hash: string): (r: map<nat, User>)
    ensures |users| == 0 ==> r == map[next := User(email, hash, AdminName)]
    ensures |users| != 0 ==> r == users
  {
    if |users| == 0 then users[next := User(email, hash, AdminName)] else users
  }

  /** On an empty users table the administrator is the row with id 1: the
      user that project creation and editing assign as owner. */
  lemma {:induction false} SeededAdminIsUserOne(users: map<nat, User>, next: nat, email: string, hash: string)
    requires TopId(users, next) && |users| == 0
    ensures SeededUsers(users, next, email, hash) == map[AdminId := User(email, hash, AdminName)]
  {
    EmptyTableRestartsIds(users, next);
  }

  /** Seeding a second time adds no categories, whatever id comes next. */
  lemma {:induction false} SeedCategoriesOnce(categories: map<nat, Category>, next: nat, later: nat)
    requires forall id :: id in categories ==> id < next
    requires forall id :: id in SeededCategories(categories, next) ==> id < later
    ensures SeededCategories(SeededCategories(categories, next), later) == SeededCategories(categories, next)
  {
    if |categories| == 0 {
      assert next in SeededCategories(categories, next);
    }
  }

  /** Seeding a second time adds no users, whatever id comes next. */
  lemma {:induction false} SeedUsersOnce(users: map<nat, User>, next: nat, later: nat, email: string, hash: string)
    ensures SeededUsers(SeededUsers(users, next, email, hash), later, email, hash) == SeededUsers(users, next, email, hash)
  {
    if |users| == 0 {
      assert next in SeededUsers(users, next, email, hash);
    }
  }
}
