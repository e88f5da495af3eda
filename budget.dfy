/** The budget tracker (parcial1/parcial1.py): SQLite tables `users` and
    `articles`, both keyed by `INTEGER PRIMARY KEY AUTOINCREMENT`. Nothing is
    UNIQUE and no operation checks who owns an article. */
module Budget {

  import opened Rows
  import opened Text

  /** A row of `users`; `password` holds the SHA-256 hex digest. */
  datatype User = User(id: int, username: string, password: string)

  /** A row of `articles`; `cost` is the REAL column, rounding left aside. */
  datatype Article = Article(id: int, title: string, description: string, cost: real, userId: int)

  predicate UserBefore(a: User, b: User)
  {
    a.id < b.id
  }

  predicate ArticleBefore(a: Article, b: Article)
  {
    a.id < b.id
  }

  // ---------------------------------------------------------------- SELECT

  /** `SELECT * FROM users WHERE username=? AND password=?`, fetchone. */
  function LoginId(users: seq<User>, username: string, hashed: string): (r: Option<int>)
    ensures r.Some? <==> exists u :: u in users && u.username == username && u.password == hashed
    ensures r.Some? ==> (exists i :: 0 <= i < |users| && users[i].username == username && users[i].password == hashed
                           && users[i].id == r.value
                           && forall j :: 0 <= j < i ==> !(users[j].username == username && users[j].password == hashed))
  {
    match First(users, Credentials(username, hashed))
    case None => None
    case Some(i) => Some(users[i].id)
  }

  /** On a table in rowid order, the row a login returns is the matching row
      with the lowest id. */
  lemma LoginIsLowestId(users: seq<User>, username: string, hashed: string)
    requires Pairwise(users, UserBefore)
    requires LoginId(users, username, hashed).Some?
    ensures forall u :: (u in users && u.username == username && u.password == hashed
                         ==> LoginId(users, username, hashed).value <= u.id)
  {
    var i :| 0 <= i < |users| && users[i].username == username && users[i].password == hashed
      && users[i].id == LoginId(users, username, hashed).value
      && forall j :: 0 <= j < i ==> !(users[j].username == username && users[j].password == hashed);
    forall u | u in users && u.username == username && u.password == hashed
      ensures users[i].id <= u.id
    {
      var k :| 0 <= k < |users| && users[k] == u;
      if k != i {
        assert UserBefore(users[i], users[k]);
      }
    }
  }

  function Credentials(username: string, hashed: string): User -> bool
  {
    (u: User) => u.username == username && u.password == hashed
  }

  /** Once a row answers a login, appending any row, such as a second
      registration of the same name, leaves the answer unchanged. */
  lemma LaterDuplicateIsShadowed(users: seq<User>, u: User, username: string, hashed: string)
    requires LoginId(users, username, hashed).Some?
    ensures LoginId(users + [u], username, hashed) == LoginId(users, username, hashed)
  {
    FirstAppend(users, u, Credentials(username, hashed));
  }

  /** A second registration of a name under another password is reached by a
      login with that password, since no earlier row has those credentials. */
  lemma NewPasswordReachesNewRow(users: seq<User>, u: User)
    requires LoginId(users, u.username, u.password).None?
    ensures LoginId(users + [u], u.username, u.password) == Some(u.id)
  {
    var p := Credentials(u.username, u.password);
    var r := users + [u];
    assert forall j :: 0 <= j < |users| ==> r[j] == users[j];
    assert First(users, p).None?;
    assert p(r[|users|]);
  }

  /** The rows `title LIKE '%' || fragment || '%'` selects. */
  function TitleLike(frag: string): Article -> bool
    requires NoWildcards(frag)
  {
    (a: Article) => Like(a.title, frag)
  }

  /** The id of an article row. */
  function ArticleId(a: Article): int
  {
    a.id
  }

  /** A selection from the table lists its articles in ascending id order. */
  lemma SelectionAscends(rows: seq<Article>, p: Article -> bool)
    requires Pairwise(rows, ArticleBefore)
    ensures StrictlyAscending(Where(rows, p), ArticleId)
  {
    WhereKeepsPairwise(rows, p, ArticleBefore);
    var r := Where(rows, p);
    forall i, j | 0 <= i < j < |r| ensures ArticleId(r[i]) < ArticleId(r[j]) {
      assert ArticleBefore(r[i], r[j]);
    }
  }

  function OwnedBy(userId: int): Article -> bool
  {
    (a: Article) => a.userId == userId
  }

  /** `DELETE FROM articles WHERE id=?` keeps these rows. */
  function IdIsNot(id: int): Article -> bool
  {
    (a: Article) => a.id != id
  }

  // ---------------------------------------------------------------- sums

  /** The costs of `rows` added up in order, as the loop of total_cost does. */
  function SumCosts(rows: seq<Article>): real
  {
    if |rows| == 0 then 0.0 else SumCosts(rows[..|rows| - 1]) + rows[|rows| - 1].cost
  }

  /** What total_cost reports for a user: the cost of their articles. */
  function UserTotal(rows: seq<Article>, userId: int): real
  {
    SumCosts(Where(rows, OwnedBy(userId)))
  }

  /** A new article adds its cost to its owner's total and to no one else's. */
  lemma TotalAfterAdd(rows: seq<Article>, a: Article, userId: int)
    ensures UserTotal(rows + [a], userId) == UserTotal(rows, userId) + (if a.userId == userId then a.cost else 0.0)
  {
    WhereAppend(rows, a, OwnedBy(userId));
    var w := Where(rows, OwnedBy(userId));
    if a.userId == userId {
      assert (w + [a])[..|w + [a]| - 1] == w;
    } else {
      assert w + [] == w;
    }
  }

  /** The total is the sum of the user's costs whatever else the table holds:
      articles of other users never count. */
  lemma {:induction false} TotalIgnoresOthers(rows: seq<Article>, others: seq<Article>, userId: int)
    requires forall a :: a in others ==> a.userId != userId
    ensures UserTotal(rows + others, userId) == UserTotal(rows, userId)
  {
    if |others| > 0 {
      var init := others[..|others| - 1];
      var last := others[|others| - 1];
      assert others == init + [last];
      assert forall a :: a in init ==> a in others;
      TotalIgnoresOthers(rows, init, userId);
      assert rows + others == (rows + init) + [last];
      TotalAfterAdd(rows + init, last, userId);
    } else {
      assert rows + others == rows;
    }
  }

  /** `UPDATE articles SET title=?, description=?, cost=? WHERE id=?`. */
  function EditedArticles(rows: seq<Article>, id: int, title: string, description: string, cost: real): (r: seq<Article>)
    ensures |r| == |rows|
  {
    seq(|rows|, i requires 0 <= i < |rows| =>
      if rows[i].id == id then rows[i].(title := title, description := description, cost := cost) else rows[i])
  }

  /** The edit rewrites title, description and cost of the row with that id,
      whoever owns it, and nothing else. */
  lemma EditTouchesOnlyThatRow(rows: seq<Article>, id: int, title: string, description: string, cost: real)
    ensures var r := EditedArticles(rows, id, title, description, cost);
      && (forall i :: 0 <= i < |rows| && rows[i].id != id ==> r[i] == rows[i])
      && (forall i :: 0 <= i < |rows| && rows[i].id == id ==>
            r[i] == Article(id, title, description, cost, rows[i].userId))
  {
  }

  /** Editing keeps the ids, so the table's key order. */
  lemma EditKeepsKeys(rows: seq<Article>, id: int, title: string, description: string, cost: real)
    requires Pairwise(rows, ArticleBefore)
    ensures Pairwise(EditedArticles(rows, id, title, description, cost), ArticleBefore)
  {
    var r := EditedArticles(rows, id, title, description, cost);
    forall i, j | 0 <= i < j < |r| ensures ArticleBefore(r[i], r[j]) {
      assert ArticleBefore(rows[i], rows[j]);
    }
  }

  class Tracker {

    const hashPassword: string -> string
    var users: seq<User>
    var articles: seq<Article>
    /** The `sqlite_sequence` counters: the largest id each table has issued. */
    var userSeq: int
    var articleSeq: int
    /** Every article id ever issued, deleted rows included. */
    ghost var issued: set<int>

    ghost predicate Valid()
      reads this
    {
      && 0 <= userSeq && 0 <= articleSeq
      && Pairwise(users, UserBefore)
      && Pairwise(articles, ArticleBefore)
      && (forall u :: u in users ==> 0 < u.id <= userSeq)
      && (forall a :: a in articles ==> a.id in issued)
      && (forall id :: id in issued ==> 0 < id <= articleSeq)
    }

    /** Freshly created tables. */
    constructor(hashPassword: string -> string)
      ensures Valid()
      ensures this.hashPassword == hashPassword
      ensures users == [] && articles == [] && issued == {}
      ensures userSeq == 0 && articleSeq == 0
    {
      this.hashPassword := hashPassword;
      users := [];
      articles := [];
      userSeq := 0;
      articleSeq := 0;
      issued := {};
    }

    /** register_user: always inserts, even when the name is taken. */
    method RegisterUser(username: string, password: string)
      requires Valid()
      modifies this
      ensures Valid()
      ensures userSeq == old(userSeq) + 1
      ensures users == old(users) + [User(userSeq, username, hashPassword(password))]
      ensures forall u :: u in old(users) ==> u.id < old(userSeq) + 1
      ensures articles == old(articles) && articleSeq == old(articleSeq) && issued == old(issued)
    {
      userSeq := userSeq + 1;
      var u := User(userSeq, username, hashPassword(password));
      assert forall x :: x in users ==> UserBefore(x, u);
      users := users + [u];
    }

    /** login: the id of the first row with those credentials. */
    method Login(username: string, password: string) returns (id: Option<int>)
      ensures id.Some? <==> exists u :: u in users && u.username == username && u.password == hashPassword(password)
      ensures id.Some? ==> exists u :: u in users && u.username == username && u.password == hashPassword(password) && u.id == id.value
      ensures id == LoginId(users, username, hashPassword(password))
    {
      id := LoginId(users, username, hashPassword(password));
    }

    /** add_article: inserts under an id no article ever had. */
    method AddArticle(userId: int, title: string, description: string, cost: real) returns (id: int)
      requires Valid()
      modifies this
      ensures Valid()
      ensures id == old(articleSeq) + 1 && articleSeq == id
      ensures id !in old(issued) && issued == old(issued) + {id}
      ensures articles == old(articles) + [Article(id, title, description, cost, userId)]
      ensures users == old(users) && userSeq == old(userSeq)
    {
      articleSeq := articleSeq + 1;
      id := articleSeq;
      var a := Article(id, title, description, cost, userId);
      assert forall x :: x in articles ==> ArticleBefore(x, a);
      articles := articles + [a];
      issued := issued + {id};
    }

    /** search_article: the articles of every user whose title holds the
        fragment, ignoring ASCII case, each once, in rowid order. */
    method SearchArticle(title: string) returns (r: seq<Article>)
      requires Valid()
      requires NoWildcards(title)
      ensures forall a :: a in r <==> a in articles && Like(a.title, title)
      ensures StrictlyAscending(r, ArticleId)
      ensures |r| <= |articles|
    {
      SelectionAscends(articles, TitleLike(title));
      r := Where(articles, TitleLike(title));
    }

    /** edit_article: no ownership check; an unknown id changes nothing. */
    method EditArticle(articleId: int, title: string, description: string, cost: real)
      requires Valid()
      modifies this
      ensures Valid()
      ensures articles == EditedArticles(old(articles), articleId, title, description, cost)
      ensures users == old(users) && issued == old(issued) && articleSeq == old(articleSeq) && userSeq == old(userSeq)
    {
      EditKeepsKeys(articles, articleId, title, description, cost);
      articles := EditedArticles(articles, articleId, title, description, cost);
    }

    /** delete_article: removes the row with that id, whoever owns it. */
    method DeleteArticle(articleId: int)
      requires Valid()
      modifies this
      ensures Valid()
      ensures articles == Where(old(articles), IdIsNot(articleId))
      ensures forall a :: a in articles <==> a in old(articles) && a.id != articleId
      ensures users == old(users) && issued == old(issued) && articleSeq == old(articleSeq) && userSeq == old(userSeq)
    {
      WhereKeepsPairwise(articles, IdIsNot(articleId), ArticleBefore);
      articles := Where(articles, IdIsNot(articleId));
    }

    /** total_cost: lists the user's articles and adds up their costs. */
    method TotalCost(userId: int) returns (listed: seq<Article>, total: real)
      ensures forall a :: a in listed <==> a in articles && a.userId == userId
      ensures Valid() ==> StrictlyAscending(listed, ArticleId)
      ensures total == UserTotal(articles, userId)
    {
      listed := Where(articles, OwnedBy(userId));
      total := 0.0;
      for i := 0 to |listed|
        invariant total == SumCosts(listed[..i])
      {
        assert listed[..i + 1][..i] == listed[..i];
        total := total + listed[i].cost;
      }
      assert listed[..|listed|] == listed;
      if Valid() {
        SelectionAscends(articles, OwnedBy(userId));
      }
    }
  }
}
