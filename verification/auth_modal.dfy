/** The login / registration form (`AuthModal`): the form fields, the
    per-field error map, the two show-password flags and the in-flight flag.
    Validation runs before any request; the request body depends on the mode.
    The server's answer is a parameter. */
module AuthModal {
  import opened Wrappers
  import opened Text

  datatype Mode = Login | Register

  /** The inputs, by their `name` attribute. */
  datatype FormField = Name | Email | Password | ConfirmPassword

  datatype FormData = FormData(name: string, email: string, password: string, confirmPassword: string)

  const EmptyForm := FormData("", "", "", "")

  function Get(f: FormData, field: FormField): string {
    match field
    case Name => f.name
    case Email => f.email
    case Password => f.password
    case ConfirmPassword => f.confirmPassword
  }

  /** `{...prev, [field]: value}`. */
  function With(f: FormData, field: FormField, value: string): (r: FormData)
    ensures Get(r, field) == value
    ensures forall g :: g != field ==> Get(r, g) == Get(f, g)
  {
    match field
    case Name => f.(name := value)
    case Email => f.(email := value)
    case Password => f.(password := value)
    case ConfirmPassword => f.(confirmPassword := value)
  }

  const NameRequired := "Username wajib diisi"
  const EmailRequired := "Email wajib diisi"
  const EmailInvalid := "Format email tidak valid"
  const PasswordRequired := "Password wajib diisi"
  const PasswordTooShort := "Password minimal 6 karakter"
  const ConfirmRequired := "Konfirmasi password wajib diisi"
  const PasswordMismatch := "Password tidak cocok"

  /** The minimum password length, in UTF-16 code units. */
  const MinPasswordLength := 6

  predicate NonWhitespaceRun(s: string) {
    |s| > 0 && forall k :: 0 <= k < |s| ==> !IsWhitespace(s[k])
  }

  /** The regular expression `\S+@\S+\.\S+` matches `s[i..e]` with the `@` at
      `at` and the `.` at `dot`. */
  ghost predicate EmailMatchAt(s: string, i: int, at: int, dot: int, e: int) {
    0 <= i < at < dot < e <= |s| &&
    s[at] == '@' && s[dot] == '.' &&
    NonWhitespaceRun(s[i..at]) && NonWhitespaceRun(s[at + 1..dot]) && NonWhitespaceRun(s[dot + 1..e])
  }

  /** `/\S+@\S+\.\S+/.test(s)`: the unanchored pattern matches somewhere. */
  ghost predicate EmailPattern(s: string) {
    exists i, at, dot, e :: EmailMatchAt(s, i, at, dot, e)
  }

  /** The check as computed: some `@` has a non-whitespace character before
      it, and is followed by a run of non-whitespace characters containing a
      `.` that is neither right after the `@` nor last in the run. */
  predicate EmailShape(s: string) {
    exists at, dot | 1 <= at && at + 1 < dot && dot + 1 < |s| :: EmailWitness(s, at, dot)
  }

  predicate EmailWitness(s: string, at: int, dot: int) {
    1 <= at && at + 1 < dot && dot + 1 < |s| &&
    s[at] == '@' && s[dot] == '.' && !IsWhitespace(s[at - 1]) && !IsWhitespace(s[dot + 1]) &&
    forall k | at < k < dot :: !IsWhitespace(s[k])
  }

  /** The computed check agrees with the regular expression on every input. */
  lemma EmailShapeIsPattern(s: string)
    ensures EmailShape(s) <==> EmailPattern(s)
  {
    if EmailShape(s) {
      var at, dot :| EmailWitness(s, at, dot);
      assert EmailWitness(s, at, dot);
      assert 1 <= at && at + 1 < dot && dot + 1 < |s|;
      assert s[at - 1..at] == [s[at - 1]];
      assert s[dot + 1..dot + 2] == [s[dot + 1]];
      assert EmailMatchAt(s, at - 1, at, dot, dot + 2);
    }
    if EmailPattern(s) {
      var i, at, dot, e :| EmailMatchAt(s, i, at, dot, e);
      assert s[i..at][at - 1 - i] == s[at - 1];
      assert s[dot + 1..e][0] == s[dot + 1];
      forall k | at < k < dot ensures !IsWhitespace(s[k]) {
        assert s[at + 1..dot][k - at - 1] == s[k];
      }
      assert EmailWitness(s, at, dot);
    }
  }

  /** The error for one field, if any (the rule table of `validateForm`). */
  function FieldError(mode: Mode, f: FormData, field: FormField): Option<string> {
    match field
    case Name =>
      if IsBlank(f.name) then Some(NameRequired) else None
    case Email =>
      if mode == Login then None
      else if IsBlank(f.email) then Some(EmailRequired)
      else if !EmailShape(f.email) then Some(EmailInvalid)
      else None
    case Password =>
      if f.password == "" then Some(PasswordRequired)
      else if mode == Register && Utf16Length(f.password) < MinPasswordLength then Some(PasswordTooShort)
      else None
    case ConfirmPassword =>
      if mode == Login then None
      else if f.confirmPassword == "" then Some(ConfirmRequired)
      else if f.password != f.confirmPassword then Some(PasswordMismatch)
      else None
  }

  /** The error map `validateForm` builds: one entry per failing field. */
  function FieldErrors(mode: Mode, f: FormData): map<FormField, string>
  {
    map g | g in {Name, Email, Password, ConfirmPassword} && FieldError(mode, f, g).Some? ::
      FieldError(mode, f, g).value
  }

  /** The error map is empty exactly when no field has an error. */
  lemma NoErrorsIff(mode: Mode, f: FormData)
    ensures FieldErrors(mode, f) == map[] <==>
      FieldError(mode, f, Name).None? && FieldError(mode, f, Email).None? &&
      FieldError(mode, f, Password).None? && FieldError(mode, f, ConfirmPassword).None?
  {
    var r := FieldErrors(mode, f);
    if r == map[] {
      assert Name !in r && Email !in r && Password !in r && ConfirmPassword !in r;
    } else {
      var g :| g in r;
    }
  }

  /** Registration passes exactly when the username is not blank, the email
      matches the pattern, the password has at least six UTF-16 code units
      (never trimmed) and the confirmation equals it. */
  lemma RegisterAcceptsIff(f: FormData)
    ensures FieldErrors(Register, f) == map[] <==>
      !AllWhitespace(f.name) && EmailPattern(f.email) &&
      Utf16Length(f.password) >= MinPasswordLength && f.confirmPassword == f.password
  {
    NoErrorsIff(Register, f);
    NameRule(Register, f);
    EmailRule(f);
    PasswordRule(f);
  }

  lemma NameRule(mode: Mode, f: FormData)
    ensures FieldError(mode, f, Name).None? <==> !AllWhitespace(f.name)
  {
    BlankIffAllWhitespace(f.name);
  }

  lemma EmailRule(f: FormData)
    ensures FieldError(Register, f, Email).None? <==> EmailPattern(f.email)
  {
    BlankIffAllWhitespace(f.email);
    EmailShapeIsPattern(f.email);
    if EmailShape(f.email) {
      EmailShapeNotBlank(f.email);
    }
  }

  /** An address of the checked shape holds an `@`, so it is not blank. */
  lemma EmailShapeNotBlank(s: string)
    requires EmailShape(s)
    ensures !AllWhitespace(s)
  {
    var at, dot :| EmailWitness(s, at, dot);
    assert EmailWitness(s, at, dot);
    assert !IsWhitespace(s[at]);
  }

  lemma PasswordRule(f: FormData)
    ensures FieldError(Register, f, Password).None? <==> Utf16Length(f.password) >= MinPasswordLength
    ensures FieldError(Register, f, Password).None? ==>
      (FieldError(Register, f, ConfirmPassword).None? <==> f.confirmPassword == f.password)
  {
    assert Utf16Length("") == 0;
  }

  /** Login checks only that the username is not blank and the password not
      empty: no length rule, and the email and confirmation are not looked at. */
  lemma LoginAcceptsIff(f: FormData)
    ensures FieldErrors(Login, f) == map[] <==> !AllWhitespace(f.name) && f.password != ""
    ensures Email !in FieldErrors(Login, f) && ConfirmPassword !in FieldErrors(Login, f)
  {
    NoErrorsIff(Login, f);
    BlankIffAllWhitespace(f.name);
  }

  /** The message shown for each failing rule, stated in terms of what the
      field holds: a blank username, a blank or malformed e-mail, a missing or
      short password, a missing or different confirmation. */
  lemma ErrorMessages(mode: Mode, f: FormData)
    ensures var r := FieldErrors(mode, f);
      && (AllWhitespace(f.name) ==> Name in r && r[Name] == NameRequired)
      && (f.password == "" ==> Password in r && r[Password] == PasswordRequired)
      && (mode == Register && AllWhitespace(f.email) ==> Email in r && r[Email] == EmailRequired)
      && (mode == Register && !AllWhitespace(f.email) && !EmailPattern(f.email) ==>
            Email in r && r[Email] == EmailInvalid)
      && (mode == Register && f.password != "" && Utf16Length(f.password) < MinPasswordLength ==>
            Password in r && r[Password] == PasswordTooShort)
      && (mode == Register && f.confirmPassword == "" ==>
            ConfirmPassword in r && r[ConfirmPassword] == ConfirmRequired)
      && (mode == Register && f.confirmPassword != "" && f.confirmPassword != f.password ==>
            ConfirmPassword in r && r[ConfirmPassword] == PasswordMismatch)
  {
    BlankIffAllWhitespace(f.name);
    BlankIffAllWhitespace(f.email);
    EmailShapeIsPattern(f.email);
  }

  /** Registering with the three-character password "abc" shows the
      too-short message. */
  lemma ShortPasswordExample(f: FormData)
    requires f.password == "abc"
    ensures Password in FieldErrors(Register, f)
    ensures FieldErrors(Register, f)[Password] == PasswordTooShort
  {
    assert Utf16Length("abc") == 3;
  }

  /** A map that agrees with the rule table on every field is the error map. */
  lemma SameErrors(m: map<FormField, string>, mode: Mode, f: FormData)
    requires Name in m <==> FieldError(mode, f, Name).Some?
    requires Email in m <==> FieldError(mode, f, Email).Some?
    requires Password in m <==> FieldError(mode, f, Password).Some?
    requires ConfirmPassword in m <==> FieldError(mode, f, ConfirmPassword).Some?
    requires Name in m ==> m[Name] == FieldError(mode, f, Name).value
    requires Email in m ==> m[Email] == FieldError(mode, f, Email).value
    requires Password in m ==> m[Password] == FieldError(mode, f, Password).value
    requires ConfirmPassword in m ==> m[ConfirmPassword] == FieldError(mode, f, ConfirmPassword).value
    ensures m == FieldErrors(mode, f)
  {
    var r := FieldErrors(mode, f);
    forall g ensures (g in m <==> g in r) && (g in m ==> m[g] == r[g]) {
      match g
      case Name =>
      case Email =>
      case Password =>
      case ConfirmPassword =>
    }
  }

  /** The request bodies: login sends the username and password, register
      adds the email. The confirmation is never sent. */
  datatype AuthRequest =
    | LoginBody(username: string, password: string)
    | RegisterBody(username: string, email: string, password: string)

  function RequestBody(mode: Mode, f: FormData): AuthRequest
  {
    match mode
    case Login => LoginBody(f.name, f.password)
    case Register => RegisterBody(f.name, f.email, f.password)
  }

  /** Two forms give the same request exactly when they agree on the username
      and password, and, when registering, on the e-mail: the body carries
      those fields and nothing else. */
  lemma RequestBodyDeterminedBy(mode: Mode, f: FormData, g: FormData)
    ensures RequestBody(mode, f) == RequestBody(mode, g) <==>
      f.name == g.name && f.password == g.password && (mode == Register ==> f.email == g.email)
  {
  }

  /** The confirmation never reaches the server, and a login sends no email. */
  lemma RequestIgnoresConfirmation(mode: Mode, f: FormData, other: string)
    ensures RequestBody(mode, With(f, ConfirmPassword, other)) == RequestBody(mode, f)
    ensures mode == Login ==> RequestBody(mode, With(f, Email, other)) == RequestBody(mode, f)
  {
  }

  /** The `data` of a successful login answer: the token, and the user's
      name when the server sent a `user`. */
  datatype LoginData = LoginData(token: string, user: Option<string>)

  /** The outcome of `POST /auth/login` or `/auth/register`: `success` true
      (with `data`, when present), `success` not true, or an exception. */
  datatype AuthReply = AuthSucceeded(data: Option<LoginData>) | AuthRefused | AuthThrew

  /** What the form tells its parent once the answer is in. */
  datatype Signal =
    | NoSignal
    | SwitchToLogin                           // `onSwitchMode()` after a registration
    | SignedIn(token: string, username: string) // `onAuthSuccess(token, user.username)`

  /** `(data.data.user || { username: formData.name }).username`. */
  function SignedInName(data: LoginData, formName: string): string
  {
    data.user.GetOr(formName)
  }

  class AuthModal {
    var formData: FormData
    var errors: map<FormField, string>
    var showPassword: bool
    var showConfirmPassword: bool
    var isLoading: bool

    constructor ()
      ensures formData == EmptyForm && errors == map[]
      ensures !showPassword && !showConfirmPassword && !isLoading
    {
      formData := EmptyForm;
      errors := map[];
      showPassword := false;
      showConfirmPassword := false;
      isLoading := false;
    }

    /** `handleInputChange`: only the named field takes the new value; its
        error, if one is shown (present and non-empty), is set to the empty
        string; every other field and error stays. */
    method HandleInputChange(field: FormField, value: string)
      modifies this`formData, this`errors
      ensures formData == With(old(formData), field, value)
      ensures errors == if field in old(errors) && old(errors)[field] != ""
                        then old(errors)[field := ""] else old(errors)
    {
      formData := With(formData, field, value);
      if field in errors && errors[field] != "" {
        errors := errors[field := ""];
      }
    }

    /** `validateForm`: builds a fresh error map field by field, replaces the
        shown errors by it, and reports whether it is empty. */
    method ValidateForm(mode: Mode) returns (ok: bool)
      modifies this`errors
      ensures errors == FieldErrors(mode, formData)
      ensures ok <==> errors == map[]
    {
      var f := formData;
      var newErrors: map<FormField, string> := map[];
      if mode == Register {
        if IsBlank(f.name) {
          newErrors := newErrors[Name := NameRequired];
        }
        assert Name in newErrors <==> FieldError(mode, f, Name).Some?;
        if IsBlank(f.email) {
          newErrors := newErrors[Email := EmailRequired];
        } else if !EmailShape(f.email) {
          newErrors := newErrors[Email := EmailInvalid];
        }
        assert Email in newErrors <==> FieldError(mode, f, Email).Some?;
        if f.password == "" {
          newErrors := newErrors[Password := PasswordRequired];
        } else if Utf16Length(f.password) < MinPasswordLength {
          newErrors := newErrors[Password := PasswordTooShort];
        }
        assert Password in newErrors <==> FieldError(mode, f, Password).Some?;
        if f.confirmPassword == "" {
          newErrors := newErrors[ConfirmPassword := ConfirmRequired];
        } else if f.password != f.confirmPassword {
          newErrors := newErrors[ConfirmPassword := PasswordMismatch];
        }
        SameErrors(newErrors, mode, f);
      } else {
        if IsBlank(f.name) {
          newErrors := newErrors[Name := NameRequired];
        }
        if f.password == "" {
          newErrors := newErrors[Password := PasswordRequired];
        }
        SameErrors(newErrors, mode, f);
      }
      errors := newErrors;
      ok := |newErrors| == 0;
    }

    /** `resetForm`: every field empty, no errors, both passwords hidden. */
    method ResetForm()
      modifies this`formData, this`errors, this`showPassword, this`showConfirmPassword
      ensures formData == EmptyForm && errors == map[]
      ensures !showPassword && !showConfirmPassword
    {
      formData := EmptyForm;
      errors := map[];
      showPassword := false;
      showConfirmPassword := false;
    }

    /** Submitting the form (the first half of `handleSubmit`): while a request
        is in flight the submit button is disabled and nothing happens;
        otherwise the form is validated, and only when that passes is the
        request for the mode sent and the form marked in flight. */
    method Submit(mode: Mode) returns (request: Option<AuthRequest>)
      modifies this`errors, this`isLoading
      ensures old(isLoading) ==> request == None && unchanged(this)
      ensures !old(isLoading) ==> errors == FieldErrors(mode, formData)
      ensures request.Some? <==> !old(isLoading) && errors == map[]
      ensures request.Some? ==> request.value == RequestBody(mode, formData)
      ensures isLoading <==> old(isLoading) || request.Some?
    {
      request := None;
      if isLoading {
        return;
      }
      var ok := ValidateForm(mode);
      if !ok {
        return;
      }
      isLoading := true;
      request := Some(RequestBody(mode, formData));
    }

    /** The answer to a request `sent` by `Submit` (the rest of `handleSubmit`):
        a registration success asks the parent to switch to login; a login
        success hands the token and username (the server's, or the name that
        was sent) to the parent and resets the form; a refusal or an exception
        (a login answer without `data` among them) changes nothing. The
        in-flight flag is cleared in every case. */
    method ReceiveReply(sent: AuthRequest, reply: AuthReply) returns (signal: Signal)
      requires isLoading
      modifies this
      ensures !isLoading
      ensures sent.RegisterBody? && reply.AuthSucceeded? ==> signal == SwitchToLogin
      ensures sent.LoginBody? && reply.AuthSucceeded? && reply.data.Some? ==>
                signal == SignedIn(reply.data.value.token, SignedInName(reply.data.value, sent.username)) &&
                formData == EmptyForm && errors == map[] && !showPassword && !showConfirmPassword
      ensures signal.SignedIn? <==> sent.LoginBody? && reply.AuthSucceeded? && reply.data.Some?
      ensures !signal.SignedIn? ==>
                unchanged(this`formData, this`errors, this`showPassword, this`showConfirmPassword)
      ensures signal.NoSignal? <==> !reply.AuthSucceeded? || (sent.LoginBody? && reply.data.None?)
    {
      signal := NoSignal;
      if reply.AuthSucceeded? {
        if sent.RegisterBody? {
          signal := SwitchToLogin;
        } else if reply.data.Some? {
          var data := reply.data.value;
          signal := SignedIn(data.token, SignedInName(data, sent.username));
          ResetForm();
        }
      }
      isLoading := false;
    }
  }
}
