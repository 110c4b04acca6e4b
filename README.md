# Social network: tables, feed queries, forms and views

A model of the core of a small Flask micro-blogging application. Users register, post short entries and follow each other. Each user's stream holds their own posts plus the posts of the users they follow.

- `query.dfy` (module `Query`): what the peewee query expressions the application uses mean over a table held as a sequence of rows in insertion order. `select().where(cond)` is `Where`, `.limit(n)` is `Limit` and `.get()` is `Get`.
- `models.dfy` (module `Models`): the `User`, `Post` and `Relationship` records and a `Store` snapshot of the three tables. `Consistent` is the invariant every state keeps: ids as SQLite assigns them, plus the unique usernames, unique emails and unique `(from_user, to_user)` index that the database enforces, plus foreign keys to existing users. SQLite does not check those foreign keys, because the code never turns on `PRAGMA foreign_keys`. They hold only because every write passes stored users, so `CreatePost` and `CreateRelationship` require that of their callers. The queries `following`, `followers`, `get_post` and `get_stream` are functions (set comprehensions and selections). The class `Database` holds the three tables as sequence fields. Its methods `CreateUser`, `CreatePost` and `CreateRelationship` insert a row or fail and leave the database unchanged, and each keeps `Consistent`.
- `forms.dfy` (module `Forms`): the WTForms validator chains of `RegisterForm`, `LoginForm` and `PostForm`. Each field is the list of messages its validators collect. The `^[a-zA-Z0-9_]+$` check is written as a greedy matcher and proved equal to a direct description of the strings it accepts.
- `app.dfy` (module `App`): the views. The read-only ones (`stream`, `view_post`, `index`, `unfollow`, `login`) are functions of a `Store`. The writing ones (`follow`, `post`, `register`) are methods on a `Database`. Each view returns a `Response`: a page with the posts it lists, a form page, a redirect, a sign-in, a 404 or an exception that escapes the view.

The model reproduces the code as written, defects included:

- `unfollow` deletes nothing, because its delete is commented out.
- `post` stores a post on every request, GET included. Its content is the text of the class attribute `PostForm.content`, whatever was submitted.
- `follow`, `unfollow` and `login` name `models.DoesNotExists`, which does not exist. A lookup that finds nobody therefore ends in an `AttributeError` rather than in the 404 or the flash message.

Each of these looks unintended: the delete is commented out, `validate_on_submit` is never called, and the `except` clause names a missing attribute. The model follows the code. Self-follow is allowed, as in the code.

## Model

| member | source | states |
|---|---|---|
| `Query.Where` | models.py:25 | the selection holds exactly the rows of the table that satisfy the condition, is no longer than the table, and repeats no row when the table has none repeated |
| `Query.Limit` | app.py:180 | at most `n` rows, all drawn from the selection; the whole selection when it has at most `n` rows, exactly `n` otherwise |
| `Query.Get` | app.py:101 | `.get()` yields a row of the selection, and fails (DoesNotExist) exactly when the selection is empty |
| `Query.WhereSingle` | app.py:116 | a selection that exactly one row satisfies is that row alone |
| `Models.Following` | models.py:33-39 | every user `following` yields is a stored user |
| `Models.FollowingIsEdges` | models.py:33-39 | `v` is in `following(u)` exactly when `v` is stored and the edge `(u, v)` exists |
| `Models.Followers` | models.py:42-49 | every user `followers` yields is a stored user (its exact contents are `FollowersIsEdges`) |
| `Models.FollowersIsEdges` | models.py:42-49 | `v` is in `followers(u)` exactly when `v` is stored and the edge `(v, u)` exists |
| `Models.FollowDuality` | models.py:33-49 | for stored users, `v` is in `following(u)` exactly when `u` is in `followers(v)` |
| `Models.GetPost` | models.py:23-25 | `get_post(u)` holds exactly the stored posts whose author is `u` |
| `Models.GetStream` | models.py:28-30 | every post of `get_stream(u)` is stored and is by `u` or by a user `u` follows (the converse is `StreamMembership`) |
| `Models.StreamMembership` | models.py:28-30 | in a consistent database, a post is in `get_stream(u)` exactly when it is stored and its author is `u` or a user `u` follows |
| `Models.StreamIsolation` | models.py:28-30 | a post by someone other than `u` whom `u` does not follow never appears in `get_stream(u)` |
| `Models.GetPostWithinStream` | models.py:23-30 | every post of `get_post(u)` is also in `get_stream(u)` |
| `Models.UsernameIdentifiesUser` | models.py:11 | in a consistent database, two stored users with the same username are the same user |
| `Models.EmailIdentifiesUser` | models.py:12 | in a consistent database, two stored users with the same email are the same user |
| `Models.Database.constructor` | models.py:88-91 | the freshly created tables are empty and consistent |
| `Models.Database.CreateUser` | models.py:51-61 | an empty password raises bcrypt's `ValueError("Password must be non-empty.")` before any insert; for any other password, raises `ValueError("User already exist")` exactly when the username or the email is already stored; either error leaves every table unchanged; otherwise appends one user with the next id, the digest of the password (never the password), the given timestamp and `is_admin` equal to `admin`; keeps the database consistent |
| `Models.Database.CreatePost` | models.py:66-72 | appends one post with the next id, the given author, timestamp and content, and changes nothing else |
| `Models.Database.CreateRelationship` | models.py:80-86 | fails with `IntegrityError` exactly when the edge is already stored, and then adds nothing; otherwise appends the edge; either way no pair is stored twice |
| `Forms.ChainAccepts` | forms.py:19-48 | a field collects no message exactly when every validator in its chain passes |
| `Forms.ChainReports` | forms.py:22-27 | the message of a failing validator is among the field's messages unless an earlier validator stopped the chain |
| `Forms.WordRun` | forms.py:24 | the greedy `[a-zA-Z0-9_]+` run is a prefix of word characters followed by the end of the text or a character outside the class |
| `Forms.UsernamePattern` | forms.py:24-25 | `re.match(r'^[a-zA-Z0-9_]+$')` accepts exactly a non-empty string of word characters, optionally followed by one trailing newline |
| `Forms.PatternNotBlank` | forms.py:23-24 | a username the pattern accepts also passes `DataRequired` |
| `Forms.NameExists` | forms.py:8-11 | the validator fails with "User with that name already exist." exactly when some stored user has that exact username, and passes otherwise |
| `Forms.EmailExists` | forms.py:14-16 | the validator fails with "That email already exist" exactly when some stored user has that exact email, and passes otherwise |
| `Forms.UsernameAcceptance` | forms.py:8-27 | the username field is valid exactly when the pattern accepts it and no stored user has that exact username |
| `Forms.UsernameTakenReported` | forms.py:8-11 | a non-blank username that a stored user already has is reported with "User with that name already exist." |
| `Forms.EmailAcceptance` | forms.py:14-35 | the email field is valid exactly when it is not blank, has email syntax and no stored user has that exact email |
| `Forms.EmailTakenReported` | forms.py:14-16 | a non-blank email that a stored user already has is reported with "That email already exist" |
| `Forms.PasswordAcceptance` | forms.py:37-44 | the password field is valid exactly when it is not blank, has at least 5 characters and equals `password2` |
| `Forms.RegisterFormValid` | forms.py:19-48 | `RegisterForm` validates exactly when all of the username, email and password conditions above hold; every field is required |
| `Forms.LoginFormValid` | forms.py:51-53 | `LoginForm` validates exactly when the email is not blank and has email syntax and the password is not blank |
| `Forms.PostFormErrors` | forms.py:56-57 | `PostForm.content` has no validators: every content, blank included, is accepted |
| `App.LookupByName` | app.py:140 | the `**` lookup yields a stored user whose username matches the pattern, and fails exactly when no stored username matches |
| `App.Stream` | app.py:97-111 | with no name or the viewer's own name: a page of at most 100 posts from the viewer's stream, each by the viewer or a followee, the whole stream when it fits and exactly 100 when it does not; with another name: 404 exactly when no stored username matches, otherwise at most 100 posts, all written by the matched user, all of them when they fit and exactly 100 when they do not; the template is `user_stream.html` exactly when a name was given |
| `App.ViewPost` | app.py:115-119 | 404 exactly when no stored post has the id; otherwise a non-empty page of stored posts, each with that id |
| `App.ViewPostFindsRow` | app.py:116-118 | in a consistent database the page for an id in range holds exactly the one post with that id, and any other id is 404 |
| `App.Index` | app.py:178-181 | a page of at most 100 stored posts, all of them when at most 100 are stored, exactly 100 otherwise |
| `App.Unfollow` | app.py:159-174 | redirects exactly when some stored username matches and otherwise ends in `AttributeError`, never 404; it is a function of the tables, so no edge is ever removed |
| `App.Login` | app.py:65-81 | an invalid or unsubmitted form re-renders the form; a sign-in is always of the stored user with that email whose digest matches the password; `AttributeError` exactly when the form validates and no user has the email |
| `App.LoginAcceptsOwner` | app.py:68-78 | in a consistent database, the stored owner of an email who gives their registered password is signed in as that user |
| `App.Follow` | app.py:138-153 | if the name matches nobody: `AttributeError`, no table changes; otherwise a redirect to the stream, the edge from the viewer to the matched user appended unless already stored (the duplicate is swallowed), the matched user now in the viewer's `following`, users and posts unchanged |
| `App.NewPost` | app.py:124-133 | every call appends exactly one post by the viewer with the next id and the class attribute's text as content, whatever was submitted; the post is then in the viewer's `get_post`; a redirect to index |
| `App.Register` | app.py:49-61 | when the request submits a valid form with a valid token, exactly one non-admin user with the form's username, email and password digest is appended and the view redirects; otherwise the form is re-rendered and the users table is unchanged; neither `ValueError` path is reached, since validation rules out a taken name or email and a blank password |

## Left out

- Flask plumbing is not modelled: routing, template rendering, flash messages, redirects as HTTP, the 404 page, session cookies, `login_user`/`logout_user`, `logout`, `load_user`, `login_required` and the per-request connect/close. These are framework concerns.
- bcrypt: `generate_password_hash` is a symbolic digest `Digest(password)`, and `check_password_hash` compares against it. That distinct passwords get distinct digests is an assumption of the model; real bcrypt ignores everything past the 72nd byte. Salting and the one-way property are not modelled.
- The `Email()` validator's syntax rules belong to a library. They are a parameter `emailSyntax`.
- The `**` (case-insensitive LIKE) username lookups in `stream`, `follow` and `unfollow` use a parameter `ilike(value, pattern)`. SQLite's case folding and its `%`/`_` wildcards are not modelled.
- The CSRF check inside `validate_on_submit` is a boolean input `csrfValid`.
- `datetime.now` readings are values supplied by the caller.
- Result order is not modelled. `Meta.order_by` may or may not be honoured, so `Limit` keeps a prefix of table order and no contract says which rows survive.
- App.Stream: does not state which 100 posts are kept when more are eligible, because the order of the selection is not fixed.
- App.Index: does not state which 100 posts are kept when more are stored, for the same reason.
- The anonymous-viewer path of `stream`, where `current_user` has no `username`, is not modelled: every viewer is a stored user.
- The `__main__` bootstrap and the admin account it seeds are not modelled.
- Concurrency and transaction isolation of the SQLite file are not modelled: every view runs alone.
- `max_length=100` on the password column is not modelled, because SQLite does not enforce declared lengths.
