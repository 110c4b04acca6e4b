/** The three tables of the social graph (users, posts and follow edges), the
    queries `User.get_post`, `User.get_stream`, `User.following` and
    `User.followers`, and the inserts `User.create_user`, `Post.create` and
    `Relationship.create` on the shared database. */
module Models {
  import opened Query

  /** A row id. SQLite gives a new row the largest id so far plus one; nothing
      is ever deleted, so the n-th row of a table has id n. */
  type UserId = nat
  type PostId = nat

  /** A `datetime.datetime.now` reading, supplied by the caller. */
  type Timestamp = int

  /** The digest `generate_password_hash` stores. That two different passwords
      never share a digest is an assumption of this model: bcrypt itself only
      reads the first 72 bytes of a password. */
  datatype PasswordHash = Digest(secret: string)

  function GeneratePasswordHash(password: string): PasswordHash {
    Digest(password)
  }

  /** `check_password_hash(hash, password)`. */
  predicate CheckPasswordHash(hash: PasswordHash, password: string) {
    hash == GeneratePasswordHash(password)
  }

  datatype User = User(
    id: UserId,
    username: string,
    email: string,
    password: PasswordHash,
    joinedAt: Timestamp,
    isAdmin: bool)

  /** A post; `user` is the foreign key to its author. */
  datatype Post = Post(id: PostId, timestamp: Timestamp, user: UserId, content: string)

  /** A follow edge: `fromUser` follows `toUser`. */
  datatype Relationship = Relationship(fromUser: UserId, toUser: UserId)

  /** The contents of the database at one moment, each table in insertion order. */
  datatype Store = Store(users: seq<User>, posts: seq<Post>, relationships: seq<Relationship>)

  predicate IsUserId(s: Store, id: UserId) {
    1 <= id <= |s.users|
  }

  predicate UsernameTaken(users: seq<User>, name: string) {
    exists u :: u in users && u.username == name
  }

  predicate EmailTaken(users: seq<User>, email: string) {
    exists u :: u in users && u.email == email
  }

  /** What holds of every state: row ids as SQLite assigns them, and
      `unique=True` on `username` and on `email` and the unique index on
      `(from_user, to_user)`, which the database enforces. The foreign keys
      name existing users only because every write passes stored users (the
      signed-in viewer, a looked-up target): SQLite is not asked to check
      them, so the inserts below require it of their callers. */
  ghost predicate Consistent(s: Store) {
    (forall i :: 0 <= i < |s.users| ==> s.users[i].id == i + 1)
    && (forall i :: 0 <= i < |s.posts| ==> s.posts[i].id == i + 1)
    && (forall i, j :: 0 <= i < j < |s.users| ==> s.users[i].username != s.users[j].username)
    && (forall i, j :: 0 <= i < j < |s.users| ==> s.users[i].email != s.users[j].email)
    && Distinct(s.relationships)
    && (forall p :: p in s.posts ==> IsUserId(s, p.user))
    && (forall e :: e in s.relationships ==> IsUserId(s, e.fromUser) && IsUserId(s, e.toUser))
  }

  // ---------------------------------------------------------------------------
  // Queries

  /** `User.following`: the users joined on `Relationship.to_user` where
      `Relationship.from_user` is `self`. */
  function Following(s: Store, self: User): (r: set<User>)
    ensures forall u :: u in r ==> u in s.users
  {
    set u, e | u in s.users && e in s.relationships && e.toUser == u.id && e.fromUser == self.id :: u
  }

  /** `User.followers`: the users joined on `Relationship.from_user` where
      `Relationship.to_user` is `self`. */
  function Followers(s: Store, self: User): (r: set<User>)
    ensures forall u :: u in r ==> u in s.users
  {
    set u, e | u in s.users && e in s.relationships && e.fromUser == u.id && e.toUser == self.id :: u
  }

  /** The ids the subquery `self.following()` yields inside `get_stream`. */
  function FollowingIds(s: Store, self: User): set<UserId> {
    set u | u in Following(s, self) :: u.id
  }

  /** The condition `Post.user << ids`. */
  function AuthoredBy(ids: set<UserId>): Post -> bool {
    (p: Post) => p.user in ids
  }

  /** `User.get_post`, and equally the backref `user.posts`. */
  function GetPost(s: Store, self: User): (r: seq<Post>)
    ensures forall p :: p in r ==> p in s.posts && p.user == self.id
    ensures forall p :: p in s.posts && p.user == self.id ==> p in r
  {
    Where(s.posts, AuthoredBy({self.id}))
  }

  /** `User.get_stream`: posts whose author is `self` or one of `self.following()`. */
  function GetStream(s: Store, self: User): (r: seq<Post>)
    ensures forall p :: p in r ==> p in s.posts
    ensures forall p :: p in r ==>
      p.user == self.id || Relationship(self.id, p.user) in s.relationships
  {
    var ids := {self.id} + FollowingIds(s, self);
    assert forall p :: p in Where(s.posts, AuthoredBy(ids)) ==> p.user in ids;
    Where(s.posts, AuthoredBy(ids))
  }

  // ---------------------------------------------------------------------------
  // Properties of the queries

  /** `following(self)` holds exactly the users at the head of an edge from `self`. */
  lemma FollowingIsEdges(s: Store, self: User, u: User)
    ensures u in Following(s, self) <==> u in s.users && Relationship(self.id, u.id) in s.relationships
  {
  }

  /** `followers(self)` holds exactly the users at the tail of an edge to `self`. */
  lemma FollowersIsEdges(s: Store, self: User, u: User)
    ensures u in Followers(s, self) <==> u in s.users && Relationship(u.id, self.id) in s.relationships
  {
  }

  /** `v` is among the users `u` follows exactly when `u` is among `v`'s followers. */
  lemma FollowDuality(s: Store, u: User, v: User)
    requires u in s.users && v in s.users
    ensures v in Following(s, u) <==> u in Followers(s, v)
  {
  }

  /** The stream holds exactly the posts by `self` or by a user `self` follows. */
  lemma {:induction false} StreamMembership(s: Store, self: User, p: Post)
    requires Consistent(s)
    ensures p in GetStream(s, self) <==>
      p in s.posts && (p.user == self.id || Relationship(self.id, p.user) in s.relationships)
  {
    var ids := {self.id} + FollowingIds(s, self);
    if p in GetStream(s, self) && p.user != self.id {
      assert AuthoredBy(ids)(p);
      var u :| u in Following(s, self) && u.id == p.user;
      FollowingIsEdges(s, self, u);
    }
    if p in s.posts && p.user != self.id && Relationship(self.id, p.user) in s.relationships {
      var u := s.users[p.user - 1];
      FollowingIsEdges(s, self, u);
      assert p.user in FollowingIds(s, self);
      assert AuthoredBy(ids)(p);
    }
  }

  /** A post whose author is neither `self` nor followed by `self` is not in the stream. */
  lemma StreamIsolation(s: Store, self: User, p: Post)
    requires p.user != self.id
    requires Relationship(self.id, p.user) !in s.relationships
    ensures p !in GetStream(s, self)
  {
  }

  /** Everything `get_post` returns is also in `get_stream`. */
  lemma GetPostWithinStream(s: Store, self: User)
    ensures forall p :: p in GetPost(s, self) ==> p in GetStream(s, self)
  {
  }

  /** No two stored users share a username. */
  lemma UsernameIdentifiesUser(s: Store, a: User, b: User)
    requires Consistent(s) && a in s.users && b in s.users
    requires a.username == b.username
    ensures a == b
  {
  }

  /** No two stored users share an email. */
  lemma EmailIdentifiesUser(s: Store, a: User, b: User)
    requires Consistent(s) && a in s.users && b in s.users
    requires a.email == b.email
    ensures a == b
  {
  }

  // ---------------------------------------------------------------------------
  // The shared database

  /** The message `create_user` raises when the username or email is taken. */
  const DuplicateUserMessage := "User already exist"

  /** The message Flask-Bcrypt's `generate_password_hash` raises for an empty password. */
  const EmptyPasswordMessage := "Password must be non-empty."

  /** Outcome of `User.create_user`. */
  datatype CreateUserOutcome = Created(user: User) | ValueError(message: string)

  /** Outcome of an insert that a unique index guards. */
  datatype InsertOutcome = Inserted | IntegrityError

  /** The SQLite database `social.db` with its three tables. */
  class Database {
    var users: seq<User>
    var posts: seq<Post>
    var relationships: seq<Relationship>

    function State(): Store
      reads this
    {
      Store(users, posts, relationships)
    }

    ghost predicate Valid()
      reads this
    {
      Consistent(State())
    }

    /** `initialize()` on a fresh file: the three tables, empty. */
    constructor ()
      ensures Valid()
      ensures users == [] && posts == [] && relationships == []
    {
      users, posts, relationships := [], [], [];
    }

    /** `User.create_user`: inside a transaction, insert a user holding the
        password's digest; a username or email already present violates a
        unique constraint, the transaction rolls back and `ValueError` is raised.
        The digest is computed first, and Flask-Bcrypt's `generate_password_hash`
        itself raises `ValueError` for an empty password, which the `except
        IntegrityError` clause does not catch. */
    method CreateUser(username: string, email: string, password: string, admin: bool, now: Timestamp)
      returns (outcome: CreateUserOutcome)
      requires Valid()
      modifies this
      ensures Valid()
      ensures posts == old(posts) && relationships == old(relationships)
      ensures outcome.ValueError? ==> users == old(users)
      ensures password == "" ==> outcome == ValueError(EmptyPasswordMessage)
      ensures password != "" ==>
        (outcome.ValueError? <==> UsernameTaken(old(users), username) || EmailTaken(old(users), email))
      ensures password != "" && outcome.ValueError? ==> outcome.message == DuplicateUserMessage
      ensures outcome.Created? ==>
        outcome.user == User(|old(users)| + 1, username, email, GeneratePasswordHash(password), now, admin)
        && users == old(users) + [outcome.user]
    {
      var clash := exists u :: u in users && (u.username == username || u.email == email);
      if password == "" {
        outcome := ValueError(EmptyPasswordMessage);
      } else if clash {
        outcome := ValueError(DuplicateUserMessage);
      } else {
        var user := User(|users| + 1, username, email, GeneratePasswordHash(password), now, admin);
        users := users + [user];
        outcome := Created(user);
      }
    }

    /** `Post.create(user=author, content=content)`, timestamped `now`. */
    method CreatePost(author: User, content: string, now: Timestamp) returns (post: Post)
      requires Valid() && author in users
      modifies this
      ensures Valid()
      ensures users == old(users) && relationships == old(relationships)
      ensures post == Post(|old(posts)| + 1, now, author.id, content)
      ensures posts == old(posts) + [post]
    {
      post := Post(|posts| + 1, now, author.id, content);
      posts := posts + [post];
    }

    /** `Relationship.create(from_user, to_user)`: the unique index on the pair
        turns a second copy of an edge into `IntegrityError`, and nothing is added. */
    method CreateRelationship(fromUser: User, toUser: User) returns (outcome: InsertOutcome)
      requires Valid() && fromUser in users && toUser in users
      modifies this
      ensures Valid()
      ensures users == old(users) && posts == old(posts)
      ensures outcome == IntegrityError <==> Relationship(fromUser.id, toUser.id) in old(relationships)
      ensures outcome == IntegrityError ==> relationships == old(relationships)
      ensures outcome == Inserted ==> relationships == old(relationships) + [Relationship(fromUser.id, toUser.id)]
    {
      var edge := Relationship(fromUser.id, toUser.id);
      if edge in relationships {
        outcome := IntegrityError;
      } else {
        relationships := relationships + [edge];
        outcome := Inserted;
      }
    }
  }
}
