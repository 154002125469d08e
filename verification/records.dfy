/** The rows of the three tables (users_data, categories, projects) and the
    session role. A row's id is the key under which its table stores it, so
    the records below carry only the remaining columns; a project's owner and
    category are explicit foreign-key fields. */
module Records {

  datatype Option<T> = None | Some(value: T)

  /** A row of users_data. */
  datatype User = User(email: string, password: string, name: string)

  /** A row of categories. */
  datatype Category = Category(name: string, description: string, imgLogo: string, imgBg: string)

  /** A row of projects. */
  datatype Project = Project(
    userId: nat,
    categoryId: nat,
    title: string,
    description: string,
    body: string,
    date: string,
    imgUrl: string)

  /** Whether the caller is the administrator or anyone else. */
  datatype Role = Visitor | Admin

  /** The owner that project creation and editing always assign. */
  const AdminId: nat := 1

  /** The keys of a table are all below `next`, and `next` is one past the
      largest key (1 for an empty table): the id the database hands to the
      next inserted row. */
  ghost predicate TopId<T>(table: map<nat, T>, next: nat)
  {
    && 1 <= next
    && (forall id :: id in table ==> 1 <= id < next)
    && (next == 1 || next - 1 in table)
  }

  /** Inserting under the next id keeps the allocation rule, one id further. */
  lemma TopIdInsert<T>(table: map<nat, T>, next: nat, v: T)
    requires TopId(table, next)
    ensures next !in table && TopId(table[next := v], next + 1)
  {
  }

  lemma {:induction false} EmptyTableRestartsIds<T>(table: map<nat, T>, next: nat)
    ensures TopId(table, next) ==> (|table| == 0 <==> next == 1)
  {
    if !TopId(table, next) {
    } else if |table| == 0 {
      assert next - 1 !in table;
    } else {
      var id :| id in table;
      assert 1 <= id < next;
    }
  }
}
