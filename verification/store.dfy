/** The portfolio site's state and routes: three tables keyed by id and the
    process-wide role, changed in place by the routes of the home page,
    project creation, editing and deletion, and administrator login and
    logout. */
module Portfolio {
  import opened Records
  import opened Queries
  import opened Overview
  import opened Seeding
  import opened Login

  /** What a project route does with a request. */
  datatype Outcome =
    | FormShown      // no valid submission: the form is rendered, nothing is written
    | NotFound       // a looked-up id is absent: HTTP 404, nothing is written
    | TitleTaken     // the UNIQUE constraint on titles rejects the commit, nothing is written
    | Done(id: nat)  // the change is committed; `id` is the project the change concerns

  /** Some project has this title. */
  predicate HasTitle(projects: map<nat, Project>, title: string)
  {
    exists id :: id in projects && projects[id].title == title
  }

  /** Some project other than `self` has this title. */
  predicate OtherHasTitle(projects: map<nat, Project>, self: nat, title: string)
  {
    exists id :: id in projects && id != self && projects[id].title == title
  }

  /** Inserting a project whose title no project has keeps titles unique. */
  lemma InsertKeepsTitlesUnique(projects: map<nat, Project>, id: nat, p: Project)
    requires TitlesUnique(projects) && id !in projects && !HasTitle(projects, p.title)
    ensures TitlesUnique(projects[id := p])
  {
  }

  /** Replacing a project by one whose title no other project has keeps
      titles unique. */
  lemma ReplaceKeepsTitlesUnique(projects: map<nat, Project>, id: nat, p: Project)
    requires TitlesUnique(projects) && !OtherHasTitle(projects, id, p.title)
    ensures TitlesUnique(projects[id := p])
  {
  }

  /** The invariant of the tables: the database's id allocation and its
      UNIQUE columns (emails and titles), and every project's owner and
      category present. The declared foreign keys are not enforced by SQLite
      here; the routes keep the last part by looking owner and category up
      before writing and by never removing a user or a category. */
  ghost predicate Consistent(users: map<nat, User>, categories: map<nat, Category>, projects: map<nat, Project>,
                             nextUser: nat, nextCategory: nat, nextProject: nat)
  {
    && TopId(users, nextUser)
    && TopId(categories, nextCategory)
    && TopId(projects, nextProject)
    && EmailsUnique(users)
    && TitlesUnique(projects)
    && forall id :: id in projects ==> projects[id].userId in users && projects[id].categoryId in categories
  }

  /** Adding a project under the next id, with a fresh title and an owner and
      a category that exist, keeps the constraints. */
  lemma InsertKeepsConsistent(users: map<nat, User>, categories: map<nat, Category>, projects: map<nat, Project>,
                              nextUser: nat, nextCategory: nat, nextProject: nat, p: Project)
    requires Consistent(users, categories, projects, nextUser, nextCategory, nextProject)
    requires p.userId in users && p.categoryId in categories && !HasTitle(projects, p.title)
    ensures nextProject !in projects
    ensures Consistent(users, categories, projects[nextProject := p], nextUser, nextCategory, nextProject + 1)
  {
    InsertKeepsTitlesUnique(projects, nextProject, p);
    TopIdInsert(projects, nextProject, p);
  }

  /** Overwriting a project, keeping its category, with a title no other
      project has and an owner that exists, keeps the constraints. */
  lemma ReplaceKeepsConsistent(users: map<nat, User>, categories: map<nat, Category>, projects: map<nat, Project>,
                               nextUser: nat, nextCategory: nat, nextProject: nat, id: nat, p: Project)
    requires Consistent(users, categories, projects, nextUser, nextCategory, nextProject)
    requires id in projects && p.categoryId == projects[id].categoryId
    requires p.userId in users && !OtherHasTitle(projects, id, p.title)
    ensures Consistent(users, categories, projects[id := p], nextUser, nextCategory, nextProject)
  {
    ReplaceKeepsTitlesUnique(projects, id, p);
  }

  /** Removing a project keeps the constraints once the next id is brought
      back to one past the largest remaining id. */
  lemma RemoveKeepsConsistent(users: map<nat, User>, categories: map<nat, Category>, projects: map<nat, Project>,
                              nextUser: nat, nextCategory: nat, nextProject: nat, id: nat, top: nat)
    requires Consistent(users, categories, projects, nextUser, nextCategory, nextProject)
    requires TopId(projects - {id}, top)
    ensures Consistent(users, categories, projects - {id}, nextUser, nextCategory, top)
  {
  }

  /** Seeding the categories keeps the constraints. */
  lemma SeedKeepsConsistent(users: map<nat, User>, categories: map<nat, Category>, projects: map<nat, Project>,
                            nextUser: nat, nextCategory: nat, nextProject: nat)
    requires Consistent(users, categories, projects, nextUser, nextCategory, nextProject)
    ensures Consistent(users, WithSeedCategories(categories, nextCategory), projects, nextUser, nextCategory + 4, nextProject)
  {
    SeedKeepsTopId(categories, nextCategory);
  }

  class Store {
    var users: map<nat, User>
    var categories: map<nat, Category>
    var projects: map<nat, Project>
    // One past the largest id of each table: the id its next row receives.
    var nextUser: nat
    var nextCategory: nat
    var nextProject: nat
    var role: Role

    ghost predicate Valid()
      reads this
    {
      Consistent(users, categories, projects, nextUser, nextCategory, nextProject)
    }

    /** The first start, on a fresh database file: empty tables, and every
        caller is a visitor. */
    constructor ()
      ensures Valid()
      ensures users == map[] && categories == map[] && projects == map[]
      ensures role == Visitor
    {
      users, categories, projects := map[], map[], map[];
      nextUser, nextCategory, nextProject := 1, 1, 1;
      role := Visitor;
    }

    /** A restart on an existing database file: the stored rows persist and
        only the role goes back to visitor. */
    constructor Reopen(users: map<nat, User>, categories: map<nat, Category>, projects: map<nat, Project>,
                       nextUser: nat, nextCategory: nat, nextProject: nat)
      requires Consistent(users, categories, projects, nextUser, nextCategory, nextProject)
      ensures Valid()
      ensures this.users == users && this.categories == categories && this.projects == projects
      ensures this.nextUser == nextUser && this.nextCategory == nextCategory && this.nextProject == nextProject
      ensures role == Visitor
    {
      this.users, this.categories, this.projects := users, categories, projects;
      this.nextUser, this.nextCategory, this.nextProject := nextUser, nextCategory, nextProject;
      role := Visitor;
    }

    /** `select(Category)`: every category id, in query order. */
    function CategoryIds(): (r: seq<nat>)
      reads this`categories, this`nextCategory
      ensures forall id :: id in r <==> id in categories && id < nextCategory
      ensures TopId(categories, nextCategory) ==> (r == [] <==> |categories| == 0)
    {
      var r := Ascending(categories.Keys, nextCategory);
      EmptyTableRestartsIds(categories, nextCategory);
      assert nextCategory - 1 in categories ==> nextCategory - 1 in r;
      assert |r| > 0 ==> r[0] in r;
      r
    }

    /** `select(User)`: every user id, in query order. */
    function UserIds(): (r: seq<nat>)
      reads this`users, this`nextUser
      ensures forall id :: id in r <==> id in users && id < nextUser
      ensures TopId(users, nextUser) ==> (r == [] <==> |users| == 0)
    {
      var r := Ascending(users.Keys, nextUser);
      EmptyTableRestartsIds(users, nextUser);
      assert nextUser - 1 in users ==> nextUser - 1 in r;
      assert |r| > 0 ==> r[0] in r;
      r
    }

    /** `random_projects`: for each given category, none, the only one or
        the first two of its projects, appended category after category. */
    method RandomProjects(cats: seq<nat>) returns (overview: seq<nat>)
      ensures overview == OverviewOf(projects, nextProject, cats)
    {
      overview := [];
      for k := 0 to |cats|
        invariant overview == OverviewOf(projects, nextProject, cats[..k])
      {
        var byCategory := ProjectsOf(projects, nextProject, cats[k]);
        ghost var before := overview;
        if |byCategory| == 0 {
        } else if |byCategory| == 1 {
          overview := overview + [byCategory[0]];
        } else {
          for i := 0 to 2
            invariant overview == before + byCategory[..i]
          {
            overview := overview + [byCategory[i]];
          }
        }
        assert overview == before + Featured(byCategory);
        OverviewStep(projects, nextProject, cats, k);
      }
      assert cats[..|cats|] == cats;
    }

    /** `create_categories`: the four fixed categories, inserted one by one. */
    method CreateCategories()
      requires Valid() && |categories| == 0
      modifies this`categories, this`nextCategory
      ensures Valid()
      ensures categories == WithSeedCategories(old(categories), old(nextCategory))
      ensures nextCategory == old(nextCategory) + 4
    {
      SeedKeepsConsistent(users, categories, projects, nextUser, nextCategory, nextProject);
      categories := categories[nextCategory := PythonCategory];
      nextCategory := nextCategory + 1;
      categories := categories[nextCategory := FrontEndCategory];
      nextCategory := nextCategory + 1;
      categories := categories[nextCategory := FullStackCategory];
      nextCategory := nextCategory + 1;
      categories := categories[nextCategory := RoboticsCategory];
      nextCategory := nextCategory + 1;
    }

    /** `create_admin`: the administrator account, with the configured email
        and the hash of the configured password. */
    method CreateAdmin(email: string, hash: string)
      requires Valid() && |users| == 0
      modifies this`users, this`nextUser
      ensures Valid()
      ensures users == map[AdminId := User(email, hash, AdminName)]
      ensures nextUser == AdminId + 1
    {
      EmptyTableRestartsIds(users, nextUser);
      TopIdInsert(users, nextUser, User(email, hash, AdminName));
      users := users[nextUser := User(email, hash, AdminName)];
      nextUser := nextUser + 1;
    }

    /** `home`: the overview of the categories as they were on entry, then the
        seeding of whichever of the categories and users tables is empty. It
        returns the overview and the category ids shown in the menu. */
    method Home(adminEmail: string, adminHash: string) returns (overview: seq<nat>, shown: seq<nat>)
      requires Valid()
      modifies this`users, this`nextUser, this`categories, this`nextCategory
      ensures Valid()
      ensures overview == OverviewOf(old(projects), old(nextProject), Ascending(old(categories).Keys, old(nextCategory)))
      ensures categories == SeededCategories(old(categories), old(nextCategory))
      ensures users == SeededUsers(old(users), old(nextUser), adminEmail, adminHash)
      ensures shown == CategoryIds()
    {
      var cats := CategoryIds();
      ghost var listed := Ascending(categories.Keys, nextCategory);
      assert cats == listed;
      ghost var noCategories := |categories| == 0;
      overview := RandomProjects(cats);
      assert overview == OverviewOf(projects, nextProject, listed);
      var userIds := UserIds();
      ghost var noUsers := |users| == 0;
      if cats == [] {
        assert noCategories;
        CreateCategories();
        cats := CategoryIds();
        assert categories == SeededCategories(old(categories), old(nextCategory));
      } else {
        assert !noCategories;
        assert categories == SeededCategories(old(categories), old(nextCategory));
      }
      assert cats == CategoryIds();
      if userIds == [] {
        assert noUsers;
        EmptyTableRestartsIds(users, nextUser);
        assert nextUser == AdminId;
        CreateAdmin(adminEmail, adminHash);
        assert users == SeededUsers(old(users), old(nextUser), adminEmail, adminHash);
      } else {
        assert !noUsers;
        assert users == SeededUsers(old(users), old(nextUser), adminEmail, adminHash);
      }
      shown := cats;
    }

    /** `create_project`: a valid submission adds a project owned by user 1 in
        category `cId`, dated `today`, and redirects to it, found again by its
        title. */
    method CreateProject(submitted: bool, cId: nat, title: string, description: string, body: string,
                         imgUrl: string, today: string) returns (r: Outcome)
      requires Valid()
      modifies this`projects, this`nextProject
      ensures Valid()
      ensures !submitted ==> r == FormShown
      ensures submitted && (AdminId !in users || cId !in categories) ==> r == NotFound
      ensures submitted && AdminId in users && cId in categories && HasTitle(old(projects), title) ==> r == TitleTaken
      ensures r.Done? <==> submitted && AdminId in users && cId in categories && !HasTitle(old(projects), title)
      ensures r.Done? ==>
        && r.id == old(nextProject) && r.id !in old(projects)
        && projects == old(projects)[r.id := Project(AdminId, cId, title, description, body, today, imgUrl)]
        && nextProject == r.id + 1
      ensures !r.Done? ==> projects == old(projects) && nextProject == old(nextProject)
    {
      if !submitted {
        return FormShown;
      }
      if AdminId !in users || cId !in categories {
        return NotFound;
      }
      if HasTitle(projects, title) {
        return TitleTaken;
      }
      var id := nextProject;
      var project := Project(AdminId, cId, title, description, body, today, imgUrl);
      InsertKeepsConsistent(users, categories, projects, nextUser, nextCategory, nextProject, project);
      projects := projects[id := project];
      nextProject := nextProject + 1;
      TitleLookupFindsOwner(projects, nextProject, id);
      var found := ProjectByTitle(projects, nextProject, title);
      r := Done(found.value);
    }

    /** `edit_project`: a valid submission overwrites the title, description,
        image URL and body of project `projectId`, sets its owner to user 1
        and its date to `today`, and keeps its id and category. */
    method EditProject(projectId: nat, submitted: bool, title: string, description: string, imgUrl: string,
                       body: string, today: string) returns (r: Outcome)
      requires Valid()
      modifies this`projects
      ensures Valid()
      ensures projectId !in old(projects) ==> r == NotFound
      ensures projectId in old(projects) && !submitted ==> r == FormShown
      ensures projectId in old(projects) && submitted && AdminId !in users ==> r == NotFound
      ensures projectId in old(projects) && submitted && AdminId in users && OtherHasTitle(old(projects), projectId, title) ==>
        r == TitleTaken
      ensures r.Done? <==>
        projectId in old(projects) && submitted && AdminId in users && !OtherHasTitle(old(projects), projectId, title)
      ensures r.Done? ==> (
        && r.id == projectId
        && projects == old(projects)[projectId := old(projects)[projectId].(
             title := title, description := description, imgUrl := imgUrl,
             userId := AdminId, body := body, date := today)])
      ensures !r.Done? ==> projects == old(projects)
    {
      if projectId !in projects {
        return NotFound;
      }
      if !submitted {
        return FormShown;
      }
      if AdminId !in users {
        return NotFound;
      }
      if OtherHasTitle(projects, projectId, title) {
        return TitleTaken;
      }
      var post := projects[projectId];
      post := post.(title := title, description := description, imgUrl := imgUrl);
      post := post.(userId := AdminId, body := body, date := today);
      ReplaceKeepsConsistent(users, categories, projects, nextUser, nextCategory, nextProject, projectId, post);
      projects := projects[projectId := post];
      r := Done(projectId);
    }

    /** `delete_project`: removes project `projectId`. Afterwards the next id
        is again one past the largest remaining id, as the database computes
        it on the next insert. */
    method DeleteProject(projectId: nat) returns (r: Outcome)
      requires Valid()
      modifies this`projects, this`nextProject
      ensures Valid()
      ensures projectId !in old(projects) ==> r == NotFound && projects == old(projects)
      ensures projectId in old(projects) ==> r == Done(projectId) && projects == old(projects) - {projectId}
    {
      if projectId !in projects {
        return NotFound;
      }
      var remaining := projects - {projectId};
      var top := nextProject;
      while top > 1 && top - 1 !in remaining
        invariant 1 <= top
        invariant forall id :: id in remaining ==> id < top
      {
        top := top - 1;
      }
      RemoveKeepsConsistent(users, categories, projects, nextUser, nextCategory, nextProject, projectId, top);
      projects, nextProject := remaining, top;
      r := Done(projectId);
    }

    /** `administrator`: a valid submission makes the caller the
        administrator exactly when the login is accepted; the tables are
        untouched. */
    method Administrator(submitted: bool, email: string, password: string,
                         checkHash: (string, string) -> bool) returns (r: LoginResult)
      modifies this`role
      ensures r == Decide(users, nextUser, submitted, email, password, checkHash)
      ensures role == if r == LoggedIn then Admin else old(role)
    {
      if !submitted {
        return ShowForm;
      }
      var user := UserByEmail(users, nextUser, email);
      if user.None? {
        r := UnknownEmail;
      } else if checkHash(users[user.value].password, password) {
        role := Admin;
        r := LoggedIn;
      } else {
        r := WrongPassword;
      }
    }

    /** `logout_admin`: back to visitor, whatever the role was. */
    method LogoutAdmin()
      modifies this`role
      ensures role == Visitor
    {
      role := Visitor;
    }
  }
}
