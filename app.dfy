/** The Flask views, reduced to what each does to the database and which
    outcome it produces: a rendered page (with the posts it lists), a
    redirect, a 404 or an exception that escapes the view. Views that only
    read are functions of the tables; views that write are methods on the
    shared `Database`. */
module App {
  import opened Query
  import opened Models
  import opened Forms

  /** The `.limit(100)` every listing applies. */
  const StreamLimit: nat := 100

  /** The exception raised where a view names `models.DoesNotExists`, an
      attribute the module does not have. */
  const MissingAttribute := "AttributeError"

  datatype Response =
    | Page(template: string, stream: seq<Post>, user: Option<User>)  // render_template with posts
    | FormPage(template: string)                                      // render_template with a form
    | Redirect(endpoint: string)
    | SignedIn(account: User)                                           // login_user, then redirect to index
    | NotFound                                                        // abort(404)
    | Unhandled(exception: string)                                    // the view raises: HTTP 500

  /** The condition `User.username ** pattern`; the case-insensitive LIKE of
      SQLite is given as `ilike(value, pattern)`. */
  function UsernameLike(pattern: string, ilike: (string, string) -> bool): User -> bool {
    (u: User) => ilike(u.username, pattern)
  }

  /** `User.get(User.username ** pattern)`: some user the pattern matches, or
      `None` where peewee raises `DoesNotExist`. */
  function LookupByName(users: seq<User>, pattern: string, ilike: (string, string) -> bool): (r: Option<User>)
    ensures r.Some? ==> r.value in users && ilike(r.value.username, pattern)
    ensures r.None? <==> forall u :: u in users ==> !ilike(u.username, pattern)
  {
    var rows := Where(users, UsernameLike(pattern, ilike));
    assert forall u :: u in users && ilike(u.username, pattern) ==> UsernameLike(pattern, ilike)(u);
    Get(rows)
  }

  /** Python truthiness of the optional `username` route argument. */
  predicate Named(username: Option<string>) {
    username.Some? && username.value != ""
  }

  /** The first branch of `stream`: a name is given and differs from the viewer's. */
  predicate OtherUser(viewer: User, username: Option<string>) {
    Named(username) && username.value != viewer.username
  }

  /** `stream(username)` for a signed-in viewer. */
  function Stream(s: Store, viewer: User, username: Option<string>, ilike: (string, string) -> bool): (r: Response)
    ensures r.Page? || r.NotFound?
    ensures r.Page? ==>
      r.template == (if Named(username) then "user_stream.html" else "stream.html")
      && |r.stream| <= StreamLimit && r.user.Some?
      && forall p :: p in r.stream ==> p in s.posts
    // no name, or the viewer's own: the viewer's stream, capped
    ensures !OtherUser(viewer, username) ==>
      r.Page? && r.user == Some(viewer)
      && (forall p :: p in r.stream ==> p in GetStream(s, viewer))
      && (forall p :: p in r.stream ==>
            p.user == viewer.id || Relationship(viewer.id, p.user) in s.relationships)
      && (|GetStream(s, viewer)| <= StreamLimit ==> r.stream == GetStream(s, viewer))
      && (|GetStream(s, viewer)| > StreamLimit ==> |r.stream| == StreamLimit)
    // another name: 404 when it resolves to nobody, else that user's own posts, capped
    ensures OtherUser(viewer, username) ==>
      (r.NotFound? <==> forall u :: u in s.users ==> !ilike(u.username, username.value))
    ensures OtherUser(viewer, username) && r.Page? ==>
      var user := r.user.value;
      user in s.users && ilike(user.username, username.value)
      && (forall p :: p in r.stream ==> p.user == user.id)
      && (|GetPost(s, user)| <= StreamLimit ==> r.stream == GetPost(s, user))
      && (|GetPost(s, user)| > StreamLimit ==> |r.stream| == StreamLimit)
  {
    var template := if Named(username) then "user_stream.html" else "stream.html";
    if OtherUser(viewer, username) then
      match LookupByName(s.users, username.value, ilike)
      case None => NotFound
      case Some(user) =>
        Page(template, Limit(GetPost(s, user), StreamLimit), Some(user))
    else
      Page(template, Limit(GetStream(s, viewer), StreamLimit), Some(viewer))
  }

  /** The condition `Post.id == id`. */
  function PostIdIs(id: int): Post -> bool {
    (p: Post) => p.id == id
  }

  /** `view_post(post_id)`: the posts with that id, or 404 when there are none. */
  function ViewPost(s: Store, postId: int): (r: Response)
    ensures r.Page? || r.NotFound?
    ensures r.NotFound? <==> forall p :: p in s.posts ==> p.id != postId
    ensures r.Page? ==>
      r.template == "stream.html" && r.user.None? && r.stream != []
      && forall p :: p in r.stream ==> p in s.posts && p.id == postId
  {
    var posts := Where(s.posts, PostIdIs(postId));
    assert forall p :: p in s.posts && p.id == postId ==> PostIdIs(postId)(p);
    if |posts| == 0 then NotFound
    else
      assert posts[0] in posts && PostIdIs(postId)(posts[0]);
      Page("stream.html", posts, None)
  }

  /** Ids are row numbers, so `view_post` lists exactly one post for an id in
      range and is 404 for any other. */
  lemma ViewPostFindsRow(s: Store, postId: int)
    requires Consistent(s)
    ensures 1 <= postId <= |s.posts| ==> ViewPost(s, postId) == Page("stream.html", [s.posts[postId - 1]], None)
    ensures !(1 <= postId <= |s.posts|) ==> ViewPost(s, postId) == NotFound
  {
    if 1 <= postId <= |s.posts| {
      WhereSingle(s.posts, PostIdIs(postId), postId - 1);
    } else {
      forall p | p in s.posts ensures p.id != postId {
        var i :| 0 <= i < |s.posts| && s.posts[i] == p;
      }
    }
  }

  /** `index()`: some of the stored posts, at most 100, all of them when they fit. */
  function Index(s: Store): (r: Response)
    ensures r.Page? && r.template == "stream.html" && r.user.None?
    ensures |r.stream| <= StreamLimit
    ensures forall p :: p in r.stream ==> p in s.posts
    ensures |s.posts| <= StreamLimit ==> r.stream == s.posts
    ensures |s.posts| > StreamLimit ==> |r.stream| == StreamLimit
  {
    Page("stream.html", Limit(s.posts, StreamLimit), None)
  }

  /** `unfollow(username)`: the delete is commented out, so the view writes
      nothing. A name that resolves gives the redirect; one that does not
      raises instead of reaching `abort(404)`. */
  function Unfollow(s: Store, viewer: User, username: string, ilike: (string, string) -> bool): (r: Response)
    ensures r == Redirect("stream") || r == Unhandled(MissingAttribute)
    ensures r == Redirect("stream") <==> exists u :: u in s.users && ilike(u.username, username)
  {
    match LookupByName(s.users, username, ilike)
    case None => Unhandled(MissingAttribute)
    case Some(_) => Redirect("stream")
  }

  /** `login()`: an unknown email raises instead of reaching the flash branch. */
  function Login(s: Store, form: LoginForm, submitted: bool, csrfValid: bool, emailSyntax: string -> bool): (r: Response)
    ensures r.FormPage? || r.SignedIn? || r.Unhandled?
    ensures r.FormPage? ==> r.template == "login.html"
    ensures !ValidateOnSubmit(submitted, csrfValid, LoginFormValid(form, emailSyntax)) ==> r.FormPage?
    ensures r.SignedIn? ==>
      r.account in s.users && r.account.email == form.email && CheckPasswordHash(r.account.password, form.password)
    ensures r.Unhandled? <==>
      ValidateOnSubmit(submitted, csrfValid, LoginFormValid(form, emailSyntax)) && !EmailTaken(s.users, form.email)
    ensures r.Unhandled? ==> r.exception == MissingAttribute
  {
    if !ValidateOnSubmit(submitted, csrfValid, LoginFormValid(form, emailSyntax)) then
      FormPage("login.html")
    else
      var rows := Where(s.users, HasEmail(form.email));
      assert forall u :: u in s.users && u.email == form.email ==> HasEmail(form.email)(u);
      match Get(rows)
      case None => Unhandled(MissingAttribute)
      case Some(user) =>
        if CheckPasswordHash(user.password, form.password) then SignedIn(user) else FormPage("login.html")
  }

  /** The owner of an email signs in with the password they registered. */
  lemma LoginAcceptsOwner(s: Store, form: LoginForm, emailSyntax: string -> bool, owner: User)
    requires Consistent(s) && owner in s.users
    requires ValidateOnSubmit(true, true, LoginFormValid(form, emailSyntax))
    requires owner.email == form.email && owner.password == GeneratePasswordHash(form.password)
    ensures Login(s, form, true, true, emailSyntax) == SignedIn(owner)
  {
  }

  /** `follow(username)`: adds the edge from the viewer to the user the name
      resolves to; a repeated follow hits the unique index and the
      `IntegrityError` is swallowed. A name that resolves to nobody raises
      instead of reaching `abort(404)`. */
  method Follow(db: Database, viewer: User, username: string, ilike: (string, string) -> bool)
    returns (r: Response)
    requires db.Valid() && viewer in db.users
    modifies db
    ensures db.Valid()
    ensures db.users == old(db.users) && db.posts == old(db.posts)
    ensures LookupByName(old(db.users), username, ilike).None? ==>
      r == Unhandled(MissingAttribute) && db.relationships == old(db.relationships)
    ensures LookupByName(old(db.users), username, ilike).Some? ==>
      var target := LookupByName(old(db.users), username, ilike).value;
      var edge := Relationship(viewer.id, target.id);
      r == Redirect("stream")
      && db.relationships == (if edge in old(db.relationships) then old(db.relationships)
                              else old(db.relationships) + [edge])
      && target in Following(db.State(), viewer)
  {
    var target := LookupByName(db.users, username, ilike);
    if target.None? {
      return Unhandled(MissingAttribute);
    }
    var outcome := db.CreateRelationship(viewer, target.value);
    FollowingIsEdges(db.State(), viewer, target.value);
    r := Redirect("stream");
  }

  /** `post()`: `form.validate_on_submit` is a bound method and never called,
      so every request, GET included, stores a post by the viewer whose
      content is the class attribute `PostForm.content`, not the submitted text. */
  method NewPost(db: Database, viewer: User, submittedContent: string, now: Timestamp)
    returns (r: Response)
    requires db.Valid() && viewer in db.users
    modifies db
    ensures db.Valid() && r == Redirect("index")
    ensures db.users == old(db.users) && db.relationships == old(db.relationships)
    ensures db.posts == old(db.posts) + [Post(|old(db.posts)| + 1, now, viewer.id, PostFormClassContent)]
    ensures db.posts[|old(db.posts)|] in GetPost(db.State(), viewer)
  {
    var post := db.CreatePost(viewer, PostFormClassContent, now);
    assert post in db.posts && AuthoredBy({viewer.id})(post);
    r := Redirect("index");
  }

  /** `register()`: when the form validates, `create_user` stores the new
      user, never an administrator; otherwise nothing changes. Validation
      already rules out both uniqueness violations and the empty password
      (`DataRequired`), so neither `ValueError` that `create_user` could raise
      is reached. */
  method Register(db: Database, form: RegisterForm, submitted: bool, csrfValid: bool,
                  emailSyntax: string -> bool, now: Timestamp)
    returns (r: Response)
    requires db.Valid()
    modifies db
    ensures db.Valid()
    ensures db.posts == old(db.posts) && db.relationships == old(db.relationships)
    ensures !ValidateOnSubmit(submitted, csrfValid, RegisterFormValid(form, old(db.users), emailSyntax)) ==>
      r == FormPage("register.html") && db.users == old(db.users)
    ensures ValidateOnSubmit(submitted, csrfValid, RegisterFormValid(form, old(db.users), emailSyntax)) ==>
      r == Redirect("index")
      && db.users == old(db.users) + [User(|old(db.users)| + 1, form.username, form.email,
                                           GeneratePasswordHash(form.password), now, false)]
  {
    if ValidateOnSubmit(submitted, csrfValid, RegisterFormValid(form, db.users, emailSyntax)) {
      var outcome := db.CreateUser(form.username, form.email, form.password, false, now);
      if outcome.ValueError? {
        r := Unhandled("ValueError");
      } else {
        r := Redirect("index");
      }
    } else {
      r := FormPage("register.html");
    }
  }
}
