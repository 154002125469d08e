# Portfolio website core, modelled in Dafny

The site is a Flask application over a SQLite database. It has three tables:

- `users_data` holds the administrator account.
- `categories` holds the four fixed project categories.
- `projects` holds the portfolio entries. Each entry has an owner and a category.

A process-wide variable says whether the caller is a visitor or the administrator.

The routes modelled here are:

- `home` builds an "overview" of at most two projects per category. On first use it also seeds the four categories and the administrator account.
- `create_project`, `edit_project` and `delete_project` change the projects table. None of them consults the process-wide role.
- `administrator` and `logout_admin` switch the role.

The model has six modules:

- `Records` (`records.dfy`) holds the rows and the rule by which ids are allocated. `TopId` says the next id is one past the largest id, and 1 on an empty table. That is how SQLite allocates an `INTEGER PRIMARY KEY` that has no `AUTOINCREMENT`.
- `Queries` (`queries.dfy`) holds the `SELECT`s the routes issue. Rows come back in ascending id order. That is the order of a table scan, since none of the statements has an `ORDER BY`.
- `Overview` (`overview.dfy`) holds the overview rule and its properties.
- `Seeding` (`seeding.dfy`) holds the seeded rows and the "seed only when empty" steps.
- `Login` (`login.dfy`) holds the login decision and its messages.
- `Portfolio` (`store.dfy`) holds the class `Store`. Its map fields are the three tables, the next id of each table and the role. The routes are methods that change these fields in place.

`Store.Valid` states the invariant that every route keeps:

- id allocation;
- the UNIQUE columns (emails and titles);
- each project's owner and category must exist. SQLite does not enforce the declared foreign keys, since `PRAGMA foreign_keys` is never turned on. The routes keep this part themselves: they look the owner and category up with `get_or_404` before writing (main.py:195-196, 226), and no route removes a user or a category.

## Model

| member | source | states |
|---|---|---|
| Records.TopIdInsert | main.py:37 | inserting under the next id keeps the allocation rule, with the next id one higher |
| Records.EmptyTableRestartsIds | main.py:37 | under the allocation rule a table is empty exactly when its next id is 1, so the first row inserted gets id 1 |
| Queries.Ascending | main.py:149-150 | a full scan lists exactly the ids of the table below the bound |
| Queries.AscendingIncreases | main.py:149-150 | a full scan lists ids in strictly ascending order |
| Queries.OfCategory | main.py:134 | the `category_id == c` filter keeps exactly the given ids whose project is in `c`, and never more ids than it was given |
| Queries.OfCategoryIncreases | main.py:134 | filtering an ascending list leaves it ascending |
| Queries.ProjectsOf | main.py:134 | the projects of category `c` are exactly the stored projects whose category is `c` |
| Queries.ProjectsOfIncreases | main.py:134 | a category's projects come in ascending id order |
| Queries.FirstMatch | main.py:278-279 | `.scalar()` of a filtered select is None exactly when no row matches; otherwise it is a matching row, and no earlier row matches |
| Queries.UserByEmail | main.py:278-279 | finds no user exactly when no stored user has the email; otherwise finds a stored user with that email |
| Queries.ProjectByTitle | main.py:205 | finds no project exactly when no stored project has the title; otherwise finds a stored project with that title |
| Queries.TitleLookupFindsOwner | main.py:205 | with unique titles, looking up a project's title finds that very project |
| Queries.EmailLookupFindsOwner | main.py:278-279 | with unique emails, looking up a user's email finds that very user |
| Overview.Featured | main.py:136-143 | a category with `n` projects contributes a prefix of its project list of length min(n, 2) |
| Overview.OverviewOf | main.py:131-144 | every overview entry is a stored project of one of the given categories |
| Overview.OverviewStep | main.py:133-143 | one more category appends exactly its featured projects to the overview |
| Overview.OverviewSize | main.py:131-144 | the overview has at most two entries per category |
| Overview.OverviewPerCategory | main.py:136-143 | when the listed categories are distinct, as a table scan lists them, each listed category has in the overview none of its projects when it has none, its only project when it has one, and its first two in query order when it has more |
| Overview.OverviewOfCategory | main.py:131-144 | when the listed categories are distinct, the overview's entries of a category are that category's featured projects when it is listed, and none otherwise |
| Overview.OverviewGrouped | main.py:133-144 | when the listed categories are distinct, the overview is grouped by category, the groups in the order the categories are listed |
| Seeding.WithSeedCategories | main.py:85-117 | seeding adds rows under exactly the four next ids and leaves the existing rows as they were |
| Seeding.SeedKeepsTopId | main.py:85-117 | seeding keeps the allocation rule, with the next id four higher, and keeps every existing id |
| Seeding.SeedCategoryNames | main.py:86-115 | the seeded categories add exactly the names Python, FrontEnd, FullStack and Robotics |
| Seeding.SeedCategoriesCount | main.py:85-117 | seeding adds exactly four rows |
| Seeding.SeededCategories | main.py:154-157 | an empty categories table gets exactly four rows under the four next ids; a non-empty one is left as it is |
| Seeding.SeededUsers | main.py:158-159 | an empty users table gets exactly the administrator row; a non-empty one is left as it is |
| Seeding.SeededAdminIsUserOne | main.py:120-128 | the administrator seeded into an empty table is user 1, the owner that project creation and editing assign |
| Seeding.SeedCategoriesOnce | main.py:154-157 | seeding the categories a second time changes nothing |
| Seeding.SeedUsersOnce | main.py:158-159 | seeding the users a second time changes nothing |
| Login.FlashMessage | main.py:282-292 | exactly the two rejections flash a message, each its own text |
| Login.Decide | main.py:274-293 | the form is shown again exactly when nothing valid was submitted; the email is reported unknown exactly when no user has it; a login succeeds only for a user with the email whose hash accepts the password; a rejected password belongs to such a user whose hash rejects it |
| Login.LoginExactlyWhenPasswordMatches | main.py:278-289 | with unique emails, a submitted login succeeds exactly when a user with the email exists and its hash accepts the password |
| Portfolio.InsertKeepsTitlesUnique | main.py:74 | adding a project whose title no project has keeps titles unique |
| Portfolio.ReplaceKeepsTitlesUnique | main.py:74 | overwriting a project with a title no other project has keeps titles unique |
| Portfolio.InsertKeepsConsistent | main.py:194-204 | a project added under the next id, with a fresh title and an existing owner and category, keeps every constraint |
| Portfolio.ReplaceKeepsConsistent | main.py:222-229 | an edited project that keeps its category, with an existing owner and no clashing title, keeps every constraint |
| Portfolio.RemoveKeepsConsistent | main.py:236-238 | removing a project keeps every constraint once the next id is one past the largest remaining id |
| Portfolio.SeedKeepsConsistent | main.py:85-117 | seeding the categories keeps every constraint |
| Portfolio.Store.constructor | main.py:26-31 | the first start, on a fresh database file, has empty tables and every caller a visitor |
| Portfolio.Store.Reopen | main.py:26-31 | a restart on an existing database file keeps every stored row and next id, and resets only the role to visitor |
| Portfolio.Store.CategoryIds | main.py:149-150 | under the allocation rule, the category listing is empty exactly when the table is empty |
| Portfolio.Store.UserIds | main.py:152-153 | under the allocation rule, the user listing is empty exactly when the table is empty |
| Portfolio.Store.RandomProjects | main.py:131-144 | the loop returns the overview of the given categories, as `OverviewOf` defines it |
| Portfolio.Store.CreateCategories | main.py:85-117 | the categories table becomes the seeded table and the next id moves up by four; the constraints still hold |
| Portfolio.Store.CreateAdmin | main.py:120-128 | an empty users table becomes exactly one administrator row with id 1 and the configured email and hash |
| Portfolio.Store.Home | main.py:147-160 | the overview is computed over the categories as they were on entry; each of the categories and users tables is seeded only if it was empty; the menu lists the categories after seeding; the constraints still hold |
| Portfolio.Store.CreateProject | main.py:187-207 | no valid submission shows the form; a missing user 1 or category is a 404; a title already taken is rejected; otherwise exactly one project is added under the next id, with owner 1, the given category and today's date, and the route redirects to that id; nothing changes on a rejection |
| Portfolio.Store.EditProject | main.py:210-231 | a missing project is a 404; no valid submission shows the form; a missing user 1 is a 404; a title held by another project is rejected; otherwise only that project changes: new title, description, image URL and body, owner 1 and today's date, same id and category |
| Portfolio.Store.DeleteProject | main.py:234-238 | a missing project is a 404 and nothing changes; otherwise exactly that project is removed and the next id is again one past the largest remaining id |
| Portfolio.Store.Administrator | main.py:269-293 | the result is the login decision on the users table, and the role becomes administrator exactly on a successful login |
| Portfolio.Store.LogoutAdmin | main.py:296-300 | the role becomes visitor whatever it was |

## Left out

- Rendering, redirects, URL building and the flash queue are left out. Routes return an outcome instead: a form shown, a 404, a rejected title, or done with the id of the project the change concerns. The login route returns its decision, and `Login.FlashMessage` gives the message it flashes.
- The `print` calls in `random_projects` only write to the console, so they are left out.
- `show_projects`, `show_project`, `hobbies` and `contact` are read-only pages, and the e-mail sending behind `contact` is network I/O. `send_email.py` is not part of this model, and neither is `forms.py`.
- Form validation (`validate_on_submit`) is reduced to a boolean `submitted`. The field validators and the prefilled edit form are not modelled.
- Password hashing is left out. `generate_password_hash` becomes the stored `hash` argument and `check_password_hash` a `checkHash` parameter. Both are library routines: the first draws a random salt, and the second only re-derives the hash with the salt stored in it.
- `date.today()` becomes a `today` string parameter. The environment variables holding the admin email and password become parameters.
- Only the foreign-key columns of the ORM relationships (`user`, `category`, `projects`) are modelled, not the object links.
- The model treats a title clash as a rejection that leaves the table unchanged (`TitleTaken`). In the code, `create_project` and `edit_project` do not check for it: the UNIQUE column makes the commit raise an IntegrityError, which Flask turns into a server error with the session rolled back. The stored state is the same either way.
- In `edit_project`, the lookup of user 1 may flush the pending title change first. When user 1 is missing and the title clashes, the code may then fail on the title before it gets to the 404. The model reports the 404. Nothing is written in either case.
- `delete_project` looks the category up by name after the commit, to build its redirect. A name that matches no category crashes after the project is already deleted. The model covers only the committed deletion.
- The UNIQUE constraint on category names is not part of `Consistent`. The only category inserts are the four seed rows, and `Seeding.SeedCategoryNames` gives their names.
- The role is one variable shared by every request, as in the code. Concurrent requests are not modelled.
- Rows are assumed to come back from unordered queries in ascending id order. SQLite does this for a scan of a rowid table, but does not promise it.
