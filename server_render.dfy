/** `server/server-render.js`: the deployment variant of the server. It talks to MySQL in
    development and, in production, to PostgreSQL through the adapter of
    `server/db-adapter.js`; register and login write each statement once per dialect, and
    start-up creates the schema and seeds an administrator, test users, services and
    articles. */
module ServerRender {
  import opened Options
  import Seqs
  import opened PgPool
  import Placeholders
  import Strings
  import opened Booking
  import BookingInvariant
  import FixDbAdapter

  /* ---------------------------------------------------------------------------
     The statements of register and login, in both dialects
     --------------------------------------------------------------------------- */

  const EmailLookupHead: string := "SELECT id FROM users WHERE email = "
  const EmailLookupMySql: string := EmailLookupHead + "?"
  const EmailLookupPostgres: string := EmailLookupHead + "$1"

  const UserInsertHead1: string := "INSERT INTO users ("
  const UserInsertHead2: string := "first_name, last_name, "
  const UserInsertHead3: string := "phone, email, password_hash) VALUES ("
  const UserInsertHead: string := UserInsertHead1 + UserInsertHead2 + UserInsertHead3
  const UserInsertMySql: string := UserInsertHead + "?, ?, ?, ?, ?)"
  const UserInsertPostgres: string := UserInsertHead + "$1, $2, $3, $4, $5)"

  const LoginSelect1: string := "SELECT id, first_name, "
  const LoginSelect2: string := "last_name, email, "
  const LoginSelect3: string := "password_hash, is_active, role "
  const LoginSelect4: string := "FROM users WHERE email = "
  const LoginSelectHead: string := LoginSelect1 + LoginSelect2 + LoginSelect3 + LoginSelect4
  const LoginSelectMySql: string := LoginSelectHead + "?"
  const LoginSelectPostgres: string := LoginSelectHead + "$1"

  /** The text a branch hands to `db.execute`: MySQL's in development, PostgreSQL's in
      production. */
  function Dialect(production: bool, mySql: string, postgres: string): string
  {
    if production then postgres else mySql
  }

  function EmailLookup(production: bool, email: string): Call
  {
    Call(Dialect(production, EmailLookupMySql, EmailLookupPostgres), [SqlText(email)])
  }

  function UserInsert(production: bool, firstName: string, lastName: string, phone: string,
                      email: string, passwordHash: string): Call
  {
    Call(Dialect(production, UserInsertMySql, UserInsertPostgres),
         [SqlText(firstName), SqlText(lastName), SqlText(phone), SqlText(email), SqlText(passwordHash)])
  }

  function LoginSelect(production: bool, email: string): Call
  {
    Call(Dialect(production, LoginSelectMySql, LoginSelectPostgres), [SqlText(email)])
  }

  lemma EmailLookupHeadClean() ensures '?' !in EmailLookupHead {}
  lemma UserInsertHead1Clean() ensures '?' !in UserInsertHead1 {}
  lemma UserInsertHead2Clean() ensures '?' !in UserInsertHead2 {}
  lemma UserInsertHead3Clean() ensures '?' !in UserInsertHead3 {}
  lemma LoginSelect1Clean() ensures '?' !in LoginSelect1 {}
  lemma LoginSelect2Clean() ensures '?' !in LoginSelect2 {}
  lemma LoginSelect3Clean() ensures '?' !in LoginSelect3 {}
  lemma LoginSelect4Clean() ensures '?' !in LoginSelect4 {}

  lemma UserInsertHeadClean()
    ensures '?' !in UserInsertHead
  {
    UserInsertHead1Clean();
    UserInsertHead2Clean();
    UserInsertHead3Clean();
  }

  lemma LoginSelectHeadClean()
    ensures '?' !in LoginSelectHead
  {
    LoginSelect1Clean();
    LoginSelect2Clean();
    LoginSelect3Clean();
    LoginSelect4Clean();
  }

  lemma OneMark()
    ensures Placeholders.Numbered("?", 1) == "$1"
  {
    Placeholders.NumberedMarks(1, 1, []);
    assert Placeholders.Marks(1) + [] == "?";
  }

  lemma FiveMarks()
    ensures Placeholders.Numbered("?, ?, ?, ?, ?)", 1) == "$1, $2, $3, $4, $5)"
  {
    Placeholders.NumberedMarks(5, 1, ")");
    MarksFive();
    RefsFive();
    Placeholders.NumberedPlaceholders(")", 6);
  }

  lemma MarksFive()
    ensures Placeholders.Marks(5) + ")" == "?, ?, ?, ?, ?)"
  {
    assert Placeholders.Marks(2) == "?, ?";
    assert Placeholders.Marks(3) == "?, ?, ?";
    assert Placeholders.Marks(4) == "?, ?, ?, ?";
  }

  lemma RefsFive()
    ensures Placeholders.Refs(1, 5) == "$1, $2, $3, $4, $5"
  {
    RefsTail();
    ParamOne();
    assert Placeholders.Refs(1, 5) == Placeholders.Param(1) + ", " + Placeholders.Refs(2, 4);
  }

  lemma RefsTail()
    ensures Placeholders.Refs(2, 4) == "$2, $3, $4, $5"
  {
    RefsLast();
    ParamTwo();
    assert Placeholders.Refs(2, 4) == Placeholders.Param(2) + ", " + Placeholders.Refs(3, 3);
  }

  lemma RefsLast()
    ensures Placeholders.Refs(3, 3) == "$3, $4, $5"
  {
    ParamThree();
    ParamFour();
    ParamFive();
    assert Placeholders.Refs(5, 1) == "$5";
    assert Placeholders.Refs(4, 2) == "$4, $5";
  }

  lemma ParamOne() ensures Placeholders.Param(1) == "$1" { assert Strings.NatToString(1) == "1"; }
  lemma ParamTwo() ensures Placeholders.Param(2) == "$2" { assert Strings.NatToString(2) == "2"; }
  lemma ParamThree() ensures Placeholders.Param(3) == "$3" { assert Strings.NatToString(3) == "3"; }
  lemma ParamFour() ensures Placeholders.Param(4) == "$4" { assert Strings.NatToString(4) == "4"; }
  lemma ParamFive() ensures Placeholders.Param(5) == "$5" { assert Strings.NatToString(5) == "5"; }

  /** The two branches of each statement say the same thing: numbering the `?`s of the
      MySQL text from 1, as the adapter does, gives exactly the PostgreSQL text, and the
      PostgreSQL text, having no `?`, goes through the adapter unchanged. So with the same
      parameter list both branches send PostgreSQL the same statement. */
  lemma {:induction false} DialectParity(n: nat)
    requires n >= 1
    ensures Placeholders.Numbered(EmailLookupMySql, 1) == EmailLookupPostgres
    ensures Placeholders.Numbered(UserInsertMySql, 1) == UserInsertPostgres
    ensures Placeholders.Numbered(LoginSelectMySql, 1) == LoginSelectPostgres
    ensures Placeholders.PrepareQuery(EmailLookupMySql, n) == Placeholders.PrepareQuery(EmailLookupPostgres, n)
    ensures Placeholders.PrepareQuery(UserInsertMySql, n) == Placeholders.PrepareQuery(UserInsertPostgres, n)
    ensures Placeholders.PrepareQuery(LoginSelectMySql, n) == Placeholders.PrepareQuery(LoginSelectPostgres, n)
  {
    EmailLookupHeadClean();
    UserInsertHeadClean();
    LoginSelectHeadClean();
    OneMark();
    FiveMarks();
    Placeholders.NumberedPrefix(EmailLookupHead, "?", 1);
    Placeholders.NumberedPrefix(UserInsertHead, "?, ?, ?, ?, ?)", 1);
    Placeholders.NumberedPrefix(LoginSelectHead, "?", 1);
    Placeholders.NumberedPlaceholders(EmailLookupMySql, 1);
    Placeholders.NumberedPlaceholders(UserInsertMySql, 1);
    Placeholders.NumberedPlaceholders(LoginSelectMySql, 1);
    assert '?' in EmailLookupMySql && '?' in UserInsertMySql && '?' in LoginSelectMySql;
  }

  /* ---------------------------------------------------------------------------
     Start-up seeding
     --------------------------------------------------------------------------- */

  /** A row of a seeding `INSERT INTO users`, before the database gives it an id. */
  datatype NewUser = NewUser(firstName: string, lastName: string, phone: string, email: string,
                             passwordHash: string, isActive: bool, role: Role)

  /** A `services` row; the price is in grosze (hundredths of a złoty). The description
      is not modelled. */
  datatype Service = Service(name: string, price: nat, duration: nat, category: string)

  /** An `articles` row; the excerpt, content and image are not modelled. */
  datatype Article = Article(title: string, slug: string, category: string, isPublished: bool)

  const AdminEmail: string := "admin@example.com"

  /** The seeded accounts share the administrator's bcrypt hash of the repair script. */
  const SeedHash: string := FixDbAdapter.AdminPasswordHash

  const AdminSeed: NewUser := NewUser("Admin", "System", "123456789", AdminEmail, SeedHash, true, AdminRole)

  const TestUsers: seq<NewUser> := [
    NewUser("Anna", "Kowalska", "123456789", "anna.kowalska@example.com", ManualAccount, true, UserRole),
    NewUser("Piotr", "Nowak", "987654321", "piotr.nowak@example.com", SeedHash, true, UserRole),
    NewUser("Maria", "Wiśniewska", "555666777", "maria.wisniewska@example.com", ManualAccount, false, UserRole),
    NewUser("Jan", "Kowalski", "111222333", "jan.kowalski@example.com", SeedHash, true, UserRole),
    NewUser("Katarzyna", "Zielińska", "444555666", "katarzyna.zielinska@example.com", ManualAccount, true, UserRole)
  ]

  const SeedServices: seq<Service> := [
    Service("Manicure klasyczny", 8000, 60, "Manicure"),
    Service("Manicure hybrydowy", 12000, 90, "Manicure"),
    Service("Pedicure klasyczny", 10000, 75, "Pedicure"),
    Service("Oczyszczanie twarzy", 15000, 60, "Pielęgnacja twarzy"),
    Service("Peeling chemiczny", 20000, 45, "Pielęgnacja twarzy"),
    Service("Laminacja brwi", 8000, 45, "Stylizacja brwi"),
    Service("Mezoterapia igłowa", 30000, 60, "Medycyna estetyczna")
  ]

  const SeedArticles: seq<Article> := [
    Article("Jak dbać o skórę po zabiegu oczyszczania", "jak-dbac-o-skore-po-zabiegu", "Pielęgnacja", true),
    Article("Trendy w stylizacji brwi 2024", "trendy-stylizacja-brwi-2024", "Stylizacja", true),
    Article("Przygotowanie do manicure hybrydowego", "przygotowanie-manicure-hybrydowy", "Manicure", true)
  ]

  /** `INSERT INTO users ... VALUES (...), ... ON CONFLICT (email) DO NOTHING`: each row
      with a new email is added with the next id, the others are skipped. Every row draws
      a value from the `SERIAL` sequence, skipped or not. */
  function InsertUsersIgnore(t: Tables, rows: seq<NewUser>): (r: Tables)
    ensures t.users <= r.users
    ensures r.nextUserId == t.nextUserId + |rows|
    ensures r.slots == t.slots && r.appointments == t.appointments && r.reviews == t.reviews
    ensures r.nextAppointmentId == t.nextAppointmentId
    decreases |rows|
  {
    if rows == [] then t
    else
      var u := rows[0];
      var t1 := match InsertUser(t, u.firstName, u.lastName, u.phone, u.email, u.passwordHash, u.isActive, u.role)
                case Some(t') => t'
                case None => t.(nextUserId := t.nextUserId + 1);
      InsertUsersIgnore(t1, rows[1..])
  }

  /** `INSERT INTO articles ... ON CONFLICT (slug) DO NOTHING`. */
  function InsertArticlesIgnore(articles: seq<Article>, rows: seq<Article>): (r: seq<Article>)
    ensures articles <= r
    decreases |rows|
  {
    if rows == [] then articles
    else if exists a :: a in articles && a.slug == rows[0].slug then InsertArticlesIgnore(articles, rows[1..])
    else InsertArticlesIgnore(articles + [rows[0]], rows[1..])
  }

  /** `SELECT ... FROM users WHERE email = ...`: the rows with that email. */
  function EmailRows(users: seq<User>, email: string): seq<User>
  {
    Seqs.Filter(users, (u: User) => u.email == email)
  }

  /** The administrator is inserted only when the lookup by its email finds no row. */
  function AdminStep(t: Tables): Tables
  {
    if EmailRows(t.users, AdminEmail) == [] then InsertUsersIgnore(t, [AdminSeed]) else t
  }

  /** The users table after the administrator check and the test-user insert. */
  function SeedUsers(t: Tables): Tables
  {
    InsertUsersIgnore(AdminStep(t), TestUsers)
  }

  /** The server of `server/server-render.js` and the tables it reads and writes. */
  class RenderServer {
    /** `NODE_ENV === 'production'` */
    const production: bool
    var db: Tables
    var services: seq<Service>
    var articles: seq<Article>

    constructor (production: bool, db: Tables, services: seq<Service>, articles: seq<Article>)
      ensures this.production == production && this.db == db
      ensures this.services == services && this.articles == articles
    {
      this.production := production;
      this.db := db;
      this.services := services;
      this.articles := articles;
    }

    /** `POST /api/register`: the same decisions as `server/server.js`, with the statements
        of the running dialect. */
    method Register(firstName: Field<string>, lastName: Field<string>, phone: Field<string>,
                    email: Field<string>, password: Field<string>, passwordHash: string)
      returns (status: nat, calls: seq<Call>)
      modifies this
      ensures Reply(status, db) == Booking.Register(old(db), firstName, lastName, phone, email, password, passwordHash)
      ensures services == old(services) && articles == old(articles)
      ensures status == BadRequest ==> calls == []
      ensures status == Conflict ==> calls == [EmailLookup(production, email.value)]
      ensures status == OK ==>
                calls == [EmailLookup(production, email.value),
                          UserInsert(production, firstName.value, lastName.value, phone.value, email.value, passwordHash)]
    {
      calls := [];
      if !Truthy(firstName) || !Truthy(lastName) || !Truthy(phone) || !Truthy(email) || !Truthy(password) {
        return BadRequest, calls;
      }
      var existingUser: seq<User>;
      if production {
        calls := [Call(EmailLookupPostgres, [SqlText(email.value)])];
      } else {
        calls := [Call(EmailLookupMySql, [SqlText(email.value)])];
      }
      existingUser := EmailRows(db.users, email.value);
      EmailRowsFirst(db.users, email.value);
      if |existingUser| > 0 {
        return Conflict, calls;
      }
      var values := [SqlText(firstName.value), SqlText(lastName.value), SqlText(phone.value),
                     SqlText(email.value), SqlText(passwordHash)];
      if production {
        calls := calls + [Call(UserInsertPostgres, values)];
      } else {
        calls := calls + [Call(UserInsertMySql, values)];
      }
      db := db.(users := db.users + [User(db.nextUserId, firstName.value, lastName.value, phone.value,
                                          email.value, passwordHash, false, UserRole)],
                nextUserId := db.nextUserId + 1);
      status := OK;
    }

    /** `POST /api/login`: the same decisions as `server/server.js`, with the statement of
        the running dialect; nothing is written. */
    method Login(email: string, password: string, matches: (string, string) -> bool)
      returns (reply: LoginReply, calls: seq<Call>)
      ensures reply == Booking.Login(db, email, password, matches)
      ensures calls == [LoginSelect(production, email)]
    {
      if production {
        calls := [Call(LoginSelectPostgres, [SqlText(email)])];
      } else {
        calls := [Call(LoginSelectMySql, [SqlText(email)])];
      }
      var users := EmailRows(db.users, email);
      EmailRowsFirst(db.users, email);
      if |users| == 0 {
        return Refused(Unauthorized, WrongCredentials), calls;
      }
      var user := users[0];
      var isPasswordValid := matches(password, user.passwordHash);
      if !isPasswordValid {
        return Refused(Unauthorized, WrongCredentials), calls;
      }
      if !user.isActive {
        return Refused(Forbidden, AwaitingApproval), calls;
      }
      reply := SignedIn(Session(user.id, user.email, user.role, user.firstName, user.lastName));
    }

    /** The seeding of `startServer`. It runs only in production with a database URL:
        without one `db` is never set and the first statement throws, which is caught. */
    method Start(hasDatabaseUrl: bool)
      modifies this
      ensures production && hasDatabaseUrl ==>
                && db == SeedUsers(old(db))
                && services == old(services) + SeedServices
                && articles == InsertArticlesIgnore(old(articles), SeedArticles)
      ensures !(production && hasDatabaseUrl) ==>
                db == old(db) && services == old(services) && articles == old(articles)
    {
      if !production || !hasDatabaseUrl {
        return;
      }
      var adminCheck := EmailRows(db.users, AdminEmail);
      if |adminCheck| == 0 {
        db := InsertUsersIgnore(db, [AdminSeed]);
      }
      db := InsertUsersIgnore(db, TestUsers);
      services := services + SeedServices;
      articles := InsertArticlesIgnore(articles, SeedArticles);
    }
  }

  /** The first row with an email is what `FindByEmail` finds. */
  lemma {:induction false} EmailRowsFirst(users: seq<User>, email: string)
    ensures FindByEmail(users, email) == if EmailRows(users, email) == [] then None else Some(EmailRows(users, email)[0])
  {
    if users != [] {
      EmailRowsFirst(users[1..], email);
    }
  }

  /** Rows already present stay present. */
  lemma TakenKept(t: Tables, r: Tables, email: string)
    requires t.users <= r.users && EmailTaken(t, email)
    ensures EmailTaken(r, email)
  {
    var u :| u in t.users && u.email == email;
    var i :| 0 <= i < |t.users| && t.users[i] == u;
    assert r.users[i] == u;
  }

  /** The seeding insert keeps the schema's guarantees. */
  lemma {:induction false} InsertUsersIgnoreValid(t: Tables, rows: seq<NewUser>)
    requires Valid(t)
    ensures Valid(InsertUsersIgnore(t, rows))
    decreases |rows|
  {
    if rows != [] {
      var u := rows[0];
      var t1 := match InsertUser(t, u.firstName, u.lastName, u.phone, u.email, u.passwordHash, u.isActive, u.role)
                case Some(t') => t'
                case None => t.(nextUserId := t.nextUserId + 1);
      if !EmailTaken(t, u.email) {
        BookingInvariant.InsertUserValid(t, u.firstName, u.lastName, u.phone, u.email, u.passwordHash, u.isActive, u.role);
      }
      InsertUsersIgnoreValid(t1, rows[1..]);
    }
  }

  /** After the seeding insert every row's email is taken. */
  lemma {:induction false} InsertUsersIgnoreTakes(t: Tables, rows: seq<NewUser>)
    ensures forall r :: r in rows ==> EmailTaken(InsertUsersIgnore(t, rows), r.email)
    decreases |rows|
  {
    if rows != [] {
      var u := rows[0];
      var t1 := match InsertUser(t, u.firstName, u.lastName, u.phone, u.email, u.passwordHash, u.isActive, u.role)
                case Some(t') => t'
                case None => t.(nextUserId := t.nextUserId + 1);
      InsertUsersIgnoreTakes(t1, rows[1..]);
      if !EmailTaken(t, u.email) {
        assert t1.users[|t.users|].email == u.email;
      }
      TakenKept(t1, InsertUsersIgnore(t, rows), u.email);
    }
  }

  /** A row whose email is already taken adds nothing: when all are taken, the users stay
      as they were. */
  lemma {:induction false} InsertUsersIgnoreSkips(t: Tables, rows: seq<NewUser>)
    requires forall r :: r in rows ==> EmailTaken(t, r.email)
    ensures InsertUsersIgnore(t, rows).users == t.users
    decreases |rows|
  {
    if rows != [] {
      assert rows[0] in rows;
      InsertUsersIgnoreSkips(t.(nextUserId := t.nextUserId + 1), rows[1..]);
    }
  }

  /** The administrator step leaves the administrator's email taken, creates a missing
      administrator active with role `admin`, and keeps the schema's guarantees. */
  lemma AdminStepEffect(t: Tables)
    requires Valid(t)
    ensures var t1 := AdminStep(t);
            && Valid(t1) && EmailTaken(t1, AdminEmail) && t.users <= t1.users
            && (!EmailTaken(t, AdminEmail) ==>
                  User(t.nextUserId, "Admin", "System", "123456789", AdminEmail, SeedHash, true, AdminRole) in t1.users)
  {
    var t1 := AdminStep(t);
    EmailRowsFirst(t.users, AdminEmail);
    if EmailTaken(t, AdminEmail) {
      assert t1 == t;
    } else {
      InsertUsersIgnoreValid(t, [AdminSeed]);
      assert t1.users[|t.users|] == User(t.nextUserId, "Admin", "System", "123456789", AdminEmail, SeedHash, true, AdminRole);
    }
  }

  /** After seeding, the administrator's and every test user's email are taken; an
      administrator account that was missing is created active with role `admin`; and
      the schema's guarantees still hold. */
  lemma SeedUsersEffect(t: Tables)
    requires Valid(t)
    ensures var s := SeedUsers(t);
            && Valid(s)
            && EmailTaken(s, AdminEmail)
            && (forall r :: r in TestUsers ==> EmailTaken(s, r.email))
            && (!EmailTaken(t, AdminEmail) ==>
                  User(t.nextUserId, "Admin", "System", "123456789", AdminEmail, SeedHash, true, AdminRole) in s.users)
            && t.users <= s.users
  {
    var t1 := AdminStep(t);
    var s := SeedUsers(t);
    AdminStepEffect(t);
    InsertUsersIgnoreValid(t1, TestUsers);
    InsertUsersIgnoreTakes(t1, TestUsers);
    TakenKept(t1, s, AdminEmail);
    if !EmailTaken(t, AdminEmail) {
      var admin := User(t.nextUserId, "Admin", "System", "123456789", AdminEmail, SeedHash, true, AdminRole);
      var i :| 0 <= i < |t1.users| && t1.users[i] == admin;
      assert s.users[i] == admin;
    }
  }

  /** After the seeding insert every article's slug is taken. */
  lemma {:induction false} InsertArticlesIgnoreTakes(articles: seq<Article>, rows: seq<Article>)
    ensures forall r :: r in rows ==> exists a :: a in InsertArticlesIgnore(articles, rows) && a.slug == r.slug
    decreases |rows|
  {
    if rows != [] {
      var a1 := if exists a :: a in articles && a.slug == rows[0].slug then articles else articles + [rows[0]];
      InsertArticlesIgnoreTakes(a1, rows[1..]);
      var a :| a in a1 && a.slug == rows[0].slug;
      var i :| 0 <= i < |a1| && a1[i] == a;
      assert InsertArticlesIgnore(articles, rows)[i] == a;
    }
  }

  /** When every slug is taken, the articles stay as they were. */
  lemma {:induction false} InsertArticlesIgnoreSkips(articles: seq<Article>, rows: seq<Article>)
    requires forall r :: r in rows ==> exists a :: a in articles && a.slug == r.slug
    ensures InsertArticlesIgnore(articles, rows) == articles
    decreases |rows|
  {
    if rows != [] {
      assert rows[0] in rows;
      InsertArticlesIgnoreSkips(articles, rows[1..]);
    }
  }

  /** Seeding again after a seeding start leaves the users as they were (only the
      `SERIAL` counter moves on). */
  lemma RestartUsers(t: Tables)
    requires Valid(t)
    ensures SeedUsers(SeedUsers(t)).users == SeedUsers(t).users
  {
    var t1 := SeedUsers(t);
    SeedUsersEffect(t);
    EmailRowsFirst(t1.users, AdminEmail);
    assert AdminStep(t1) == t1;
    InsertUsersIgnoreSkips(t1, TestUsers);
  }

  /** Seeding again leaves the articles as they were. */
  lemma RestartArticles(articles: seq<Article>)
    ensures var a1 := InsertArticlesIgnore(articles, SeedArticles);
            InsertArticlesIgnore(a1, SeedArticles) == a1
  {
    InsertArticlesIgnoreTakes(articles, SeedArticles);
    InsertArticlesIgnoreSkips(InsertArticlesIgnore(articles, SeedArticles), SeedArticles);
  }

  /** But every start inserts each service once more, because `services` has no unique key
      for `ON CONFLICT` to hit: after two starts each seeded service is there twice. */
  lemma RestartServices(services: seq<Service>)
    ensures var s2 := services + SeedServices + SeedServices;
            |s2| == |services| + 14 && forall x :: x in SeedServices ==> Seqs.Count(s2, x) >= 2
  {
    forall x | x in SeedServices ensures Seqs.Count(services + SeedServices + SeedServices, x) >= 2 {
      Seqs.CountAppend(services + SeedServices, SeedServices, x);
      Seqs.CountAppend(services, SeedServices, x);
      Seqs.CountZero(SeedServices, x);
    }
  }
}
