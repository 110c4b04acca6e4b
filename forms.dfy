/** The WTForms forms of the application: `RegisterForm`, `LoginForm` and
    `PostForm`, with the custom validators `name_exists` and `email_exists`.
    A field runs its validators in order and collects their messages; the
    field is valid when no message was collected, and a form validates when
    every field is valid. */
module Forms {
  import opened Query
  import opened Models

  const RequiredMessage := "This field is required."
  const UsernameFormatMessage := "Username shourld be one word, letters, numbers, and underscores only."
  const NameTakenMessage := "User with that name already exist."
  const InvalidEmailMessage := "Invalid email address."
  const EmailTakenMessage := "That email already exist"
  const TooShortMessage := "Field must be at least 5 characters long."
  const MismatchMessage := "Passwords must match"

  /** The shortest password `Length(min=5)` admits. */
  const MinPasswordLength: nat := 5

  // ---------------------------------------------------------------------------
  // The validator chain

  /** What one validator does with a field: nothing, raise `ValidationError`
      (recorded, the chain goes on) or raise `StopValidation` (recorded, the
      rest of the chain is skipped). */
  datatype Verdict = Pass | Invalid(message: string) | Halt(message: string)

  /** The messages a field collects from its validators, in order. */
  function RunChain(verdicts: seq<Verdict>): seq<string> {
    if verdicts == [] then []
    else match verdicts[0]
      case Pass => RunChain(verdicts[1..])
      case Invalid(m) => [m] + RunChain(verdicts[1..])
      case Halt(m) => [m]
  }

  /** A field is valid exactly when every validator in its chain passes. */
  lemma {:induction false} ChainAccepts(verdicts: seq<Verdict>)
    ensures RunChain(verdicts) == [] <==> forall i :: 0 <= i < |verdicts| ==> verdicts[i] == Pass
  {
    if verdicts != [] {
      ChainAccepts(verdicts[1..]);
      if verdicts[0] == Pass {
        assert forall i :: 1 <= i < |verdicts| ==> verdicts[i] == verdicts[1..][i - 1];
      }
    }
  }

  /** A chain of three validators accepts exactly when all three pass. */
  lemma ChainAccepts3(a: Verdict, b: Verdict, c: Verdict)
    ensures RunChain([a, b, c]) == [] <==> a == Pass && b == Pass && c == Pass
  {
    var vs := [a, b, c];
    ChainAccepts(vs);
    assert vs[0] == a && vs[1] == b && vs[2] == c;
  }

  /** A message an earlier validator records stays among the field's messages. */
  lemma ChainReports(verdicts: seq<Verdict>, k: nat)
    requires k < |verdicts| && !verdicts[k].Pass?
    requires forall i :: 0 <= i < k ==> !verdicts[i].Halt?
    ensures verdicts[k].message in RunChain(verdicts)
  {
    if k > 0 {
      ChainReports(verdicts[1..], k - 1);
    }
  }

  // ---------------------------------------------------------------------------
  // Validators

  /** A character `str.strip()` removes: Python's `str.isspace`. */
  predicate IsPythonSpace(c: char) {
    var n := c as int;
    9 <= n <= 13 || 0x1c <= n <= 0x20 || n == 0x85 || n == 0xa0 || n == 0x1680
    || 0x2000 <= n <= 0x200a || n == 0x2028 || n == 0x2029 || n == 0x202f
    || n == 0x205f || n == 0x3000
  }

  /** Empty, or nothing left after `strip()`. */
  predicate IsBlank(data: string) {
    forall i :: 0 <= i < |data| ==> IsPythonSpace(data[i])
  }

  /** `DataRequired()`: a blank field stops its chain with the required message. */
  function DataRequired(data: string): Verdict {
    if IsBlank(data) then Halt(RequiredMessage) else Pass
  }

  /** A character of the class `[a-zA-Z0-9_]`. */
  predicate IsWordChar(c: char) {
    'a' <= c <= 'z' || 'A' <= c <= 'Z' || '0' <= c <= '9' || c == '_'
  }

  predicate AllWordChars(s: string) {
    forall i :: 0 <= i < |s| ==> IsWordChar(s[i])
  }

  /** How many characters the greedy `[a-zA-Z0-9_]+` consumes from the start of `s`. */
  function WordRun(s: string): (k: nat)
    ensures k <= |s|
    ensures forall i :: 0 <= i < k ==> IsWordChar(s[i])
    ensures k < |s| ==> !IsWordChar(s[k])
  {
    if s == [] || !IsWordChar(s[0]) then 0 else 1 + WordRun(s[1..])
  }

  /** `re.match(r'^[a-zA-Z0-9_]+$', s)`: the run of word characters, then `$`,
      which holds at the end of the text or just before a final newline. */
  predicate UsernamePatternMatches(s: string) {
    var k := WordRun(s);
    k >= 1 && (k == |s| || (k == |s| - 1 && s[k] == '\n'))
  }

  /** The pattern accepts exactly a non-empty run of word characters,
      optionally followed by one newline. */
  lemma UsernamePattern(s: string)
    ensures UsernamePatternMatches(s) <==>
      (|s| >= 1 && AllWordChars(s))
      || (|s| >= 2 && s[|s| - 1] == '\n' && AllWordChars(s[..|s| - 1]))
  {
  }

  /** A username the pattern accepts is not blank. */
  lemma PatternNotBlank(s: string)
    requires UsernamePatternMatches(s)
    ensures !IsBlank(s)
  {
  }

  /** The `Regexp` validator on the username. */
  function UsernameRegexp(data: string): Verdict {
    if UsernamePatternMatches(data) then Pass else Invalid(UsernameFormatMessage)
  }

  function HasUsername(name: string): User -> bool {
    (u: User) => u.username == name
  }

  function HasEmail(email: string): User -> bool {
    (u: User) => u.email == email
  }

  /** `name_exists`: `User.select().where(User.username == data).exists()`. */
  function NameExists(users: seq<User>, data: string): (v: Verdict)
    ensures v == (if UsernameTaken(users, data) then Invalid(NameTakenMessage) else Pass)
  {
    var rows := Where(users, HasUsername(data));
    assert UsernameTaken(users, data) ==> rows != [] by {
      if UsernameTaken(users, data) {
        var u :| u in users && u.username == data;
        assert u in rows;
      }
    }
    assert rows != [] ==> HasUsername(data)(rows[0]);
    if rows != [] then Invalid(NameTakenMessage) else Pass
  }

  /** `email_exists`: `User.select().where(User.email == data).exists()`. */
  function EmailExists(users: seq<User>, data: string): (v: Verdict)
    ensures v == (if EmailTaken(users, data) then Invalid(EmailTakenMessage) else Pass)
  {
    var rows := Where(users, HasEmail(data));
    assert EmailTaken(users, data) ==> rows != [] by {
      if EmailTaken(users, data) {
        var u :| u in users && u.email == data;
        assert u in rows;
      }
    }
    assert rows != [] ==> HasEmail(data)(rows[0]);
    if rows != [] then Invalid(EmailTakenMessage) else Pass
  }

  /** `Email()`; its syntax rules are the library's, given as `emailSyntax`. */
  function EmailFormat(data: string, emailSyntax: string -> bool): Verdict {
    if emailSyntax(data) then Pass else Invalid(InvalidEmailMessage)
  }

  /** `Length(min=5)`, counting characters. */
  function MinLength(data: string): Verdict {
    if |data| >= MinPasswordLength then Pass else Invalid(TooShortMessage)
  }

  /** `EqualTo('password2')`. */
  function EqualTo(data: string, other: string): Verdict {
    if data == other then Pass else Invalid(MismatchMessage)
  }

  // ---------------------------------------------------------------------------
  // RegisterForm

  datatype RegisterForm = RegisterForm(username: string, email: string, password: string, password2: string)

  function UsernameErrors(users: seq<User>, data: string): seq<string> {
    RunChain([DataRequired(data), UsernameRegexp(data), NameExists(users, data)])
  }

  function EmailErrors(users: seq<User>, data: string, emailSyntax: string -> bool): seq<string> {
    RunChain([DataRequired(data), EmailFormat(data, emailSyntax), EmailExists(users, data)])
  }

  function PasswordErrors(data: string, password2: string): seq<string> {
    RunChain([DataRequired(data), MinLength(data), EqualTo(data, password2)])
  }

  function Password2Errors(data: string): seq<string> {
    RunChain([DataRequired(data)])
  }

  /** `RegisterForm.validate()` against the users stored at that moment: every
      field required, the username pattern, both uniqueness checks, the minimum
      length and the confirmation. */
  predicate RegisterFormValid(form: RegisterForm, users: seq<User>, emailSyntax: string -> bool)
    ensures RegisterFormValid(form, users, emailSyntax) <==>
      UsernamePatternMatches(form.username) && !UsernameTaken(users, form.username)
      && !IsBlank(form.email) && emailSyntax(form.email) && !EmailTaken(users, form.email)
      && !IsBlank(form.password) && |form.password| >= MinPasswordLength
      && form.password == form.password2
  {
    UsernameAcceptance(users, form.username);
    EmailAcceptance(users, form.email, emailSyntax);
    PasswordAcceptance(form.password, form.password2);
    ChainAccepts([DataRequired(form.password2)]);
    UsernameErrors(users, form.username) == []
    && EmailErrors(users, form.email, emailSyntax) == []
    && PasswordErrors(form.password, form.password2) == []
    && Password2Errors(form.password2) == []
  }

  /** The username field accepts exactly a pattern-conforming name no user holds. */
  lemma UsernameAcceptance(users: seq<User>, data: string)
    ensures UsernameErrors(users, data) == [] <==>
      UsernamePatternMatches(data) && !UsernameTaken(users, data)
  {
    ChainAccepts3(DataRequired(data), UsernameRegexp(data), NameExists(users, data));
    if UsernamePatternMatches(data) {
      PatternNotBlank(data);
    }
  }

  /** A taken username that is not blank is reported as taken. */
  lemma UsernameTakenReported(users: seq<User>, data: string)
    requires !IsBlank(data) && UsernameTaken(users, data)
    ensures NameTakenMessage in UsernameErrors(users, data)
  {
    ChainReports([DataRequired(data), UsernameRegexp(data), NameExists(users, data)], 2);
  }

  /** The email field accepts exactly a non-blank, well-formed address no user holds. */
  lemma EmailAcceptance(users: seq<User>, data: string, emailSyntax: string -> bool)
    ensures EmailErrors(users, data, emailSyntax) == [] <==>
      !IsBlank(data) && emailSyntax(data) && !EmailTaken(users, data)
  {
    ChainAccepts3(DataRequired(data), EmailFormat(data, emailSyntax), EmailExists(users, data));
  }

  /** A taken email that is not blank is reported as taken. */
  lemma EmailTakenReported(users: seq<User>, data: string, emailSyntax: string -> bool)
    requires !IsBlank(data) && EmailTaken(users, data)
    ensures EmailTakenMessage in EmailErrors(users, data, emailSyntax)
  {
    ChainReports([DataRequired(data), EmailFormat(data, emailSyntax), EmailExists(users, data)], 2);
  }

  /** The password field accepts exactly a non-blank password of at least five
      characters that equals the confirmation. */
  lemma PasswordAcceptance(data: string, password2: string)
    ensures PasswordErrors(data, password2) == [] <==>
      !IsBlank(data) && |data| >= MinPasswordLength && data == password2
  {
    ChainAccepts3(DataRequired(data), MinLength(data), EqualTo(data, password2));
  }

  // ---------------------------------------------------------------------------
  // LoginForm and PostForm

  datatype LoginForm = LoginForm(email: string, password: string)

  /** `LoginForm.validate()`: `DataRequired`, `Email` on the email; `DataRequired` on
      the password. */
  predicate LoginFormValid(form: LoginForm, emailSyntax: string -> bool)
    ensures LoginFormValid(form, emailSyntax) <==>
      !IsBlank(form.email) && emailSyntax(form.email) && !IsBlank(form.password)
  {
    ChainAccepts([DataRequired(form.email), EmailFormat(form.email, emailSyntax)]);
    ChainAccepts([DataRequired(form.password)]);
    RunChain([DataRequired(form.email), EmailFormat(form.email, emailSyntax)]) == []
    && RunChain([DataRequired(form.password)]) == []
  }

  /** `PostForm.content` has no validators: any content, blank included, is accepted. */
  function PostFormErrors(content: string): (errors: seq<string>)
    ensures errors == []
  {
    RunChain([])
  }

  /** What `PostForm.content` is when read from the class rather than from a
      bound form: the unbound field, whose text `TextField` stores. */
  const PostFormClassContent := "<UnboundField(TextAreaField, ('value',), {})>"

  /** `form.validate_on_submit()`: a submitting request method, a valid CSRF
      token and a form that validates. */
  predicate ValidateOnSubmit(submitted: bool, csrfValid: bool, formValid: bool) {
    submitted && csrfValid && formValid
  }
}
