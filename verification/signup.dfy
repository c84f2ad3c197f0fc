/** The sign-up route `app/api/auth/signup/route.ts`: a player signs up with
    a nickname and a password only; the route checks both, builds a
    synthetic e-mail address from a slug of the nickname and a random id,
    and maps the authentication service's answer to a response. The random
    id, the environment and the authentication service are parameters. */
module Signup {
  import opened Wrappers
  import opened Seqs
  import opened Strings

  // ---------------------------------------------------------------------
  // slugify
  // ---------------------------------------------------------------------

  /** `.replace(/\s+/g, "_")`: each run of whitespace becomes one `_`. */
  function CollapseWhitespace(s: string): (r: string)
    ensures |r| <= |s|
    ensures forall k :: 0 <= k < |r| ==> r[k] == '_' || (r[k] in s && !IsWhitespace(r[k]))
  {
    CollapseRuns(s, IsWhitespace, '_')
  }

  /** A run of whitespace between text that does not touch it becomes a
      single `_`; text without whitespace is unchanged. */
  lemma WhitespaceRun(a: string, w: string, b: string)
    requires w != [] && forall k :: 0 <= k < |w| ==> IsWhitespace(w[k])
    requires a == [] || !IsWhitespace(a[|a| - 1])
    requires b == [] || !IsWhitespace(b[0])
    ensures CollapseWhitespace(a + w + b) == CollapseWhitespace(a) + "_" + CollapseWhitespace(b)
  {
    CollapseRunsSplit(a, w, b, IsWhitespace, '_');
  }

  /** The characters `[a-z0-9_]`. */
  predicate IsSlugChar(c: char) {
    ('a' <= c <= 'z') || ('0' <= c <= '9') || c == '_'
  }

  const MAX_SLUG: nat := 32

  /** `.replace(/[^a-z0-9_]/g, "")`. */
  function KeepSlugChars(t: string): (kept: string)
    ensures forall k :: 0 <= k < |kept| ==> IsSlugChar(kept[k])
  {
    var kept := Filter(t, IsSlugChar);
    assert forall k :: 0 <= k < |kept| ==> kept[k] in kept;
    kept
  }

  /** `slugify(s)`, with `toLowerCase` on ASCII letters. */
  function Slugify(s: string): (slug: string)
    ensures slug != [] && |slug| <= MAX_SLUG
    ensures forall k :: 0 <= k < |slug| ==> IsSlugChar(slug[k])
  {
    OrUser(Take(KeepSlugChars(CollapseWhitespace(ToLowerAscii(Trim(s)))), MAX_SLUG))
  }

  /** `cut || "user"`: the empty string is falsy. */
  function OrUser(cut: string): (slug: string)
    requires |cut| <= MAX_SLUG
    requires forall k :: 0 <= k < |cut| ==> IsSlugChar(cut[k])
    ensures slug != [] && |slug| <= MAX_SLUG
    ensures forall k :: 0 <= k < |slug| ==> IsSlugChar(slug[k])
    ensures cut != [] ==> slug == cut
  {
    if cut == [] then "user" else cut
  }

  /** Text with no whitespace at either end is its own trim. */
  lemma TrimUnpadded(t: string)
    requires forall k :: 0 <= k < |t| ==> !IsWhitespace(t[k])
    ensures Trim(t) == t
  {
    if t != [] {
      assert !IsWhitespace(t[0]) && !IsWhitespace(t[|t| - 1]);
    }
  }

  /** Text with no capital letter is its own lower case. */
  lemma LowerUncapitalised(t: string)
    requires forall k :: 0 <= k < |t| ==> !('A' <= t[k] <= 'Z')
    ensures ToLowerAscii(t) == t
  {
    assert forall k :: 0 <= k < |t| ==> ToLowerAscii(t)[k] == t[k];
  }

  lemma SlugCharPlain(c: char)
    requires IsSlugChar(c)
    ensures !IsWhitespace(c) && !('A' <= c <= 'Z')
  {
  }

  /** Text made of slug characters has no whitespace and no capital. */
  lemma SlugTextNormal(t: string)
    requires forall k :: 0 <= k < |t| ==> IsSlugChar(t[k])
    ensures Trim(t) == t && ToLowerAscii(t) == t && CollapseWhitespace(t) == t
  {
    forall k | 0 <= k < |t|
      ensures !IsWhitespace(t[k]) && !('A' <= t[k] <= 'Z')
    {
      SlugCharPlain(t[k]);
    }
    TrimUnpadded(t);
    LowerUncapitalised(t);
    CollapseRunsNone(t, IsWhitespace, '_');
  }

  /** A slug is its own slug. */
  lemma SlugifyIdempotent(s: string)
    ensures Slugify(Slugify(s)) == Slugify(s)
  {
    var t := Slugify(s);
    SlugTextNormal(t);
    FilterAll(t, IsSlugChar);
  }

  /** Text with no ASCII letter, digit, underscore or whitespace gives
      `user`. */
  lemma SlugFallback(s: string)
    requires forall k :: 0 <= k < |s| ==> !IsSlugChar(s[k]) && !('A' <= s[k] <= 'Z') && !IsWhitespace(s[k])
    ensures Slugify(s) == "user"
  {
    TrimUnpadded(s);
    LowerUncapitalised(s);
    CollapseRunsNone(s, IsWhitespace, '_');
    FilterNone(s, IsSlugChar);
  }

  // ---------------------------------------------------------------------
  // The route
  // ---------------------------------------------------------------------

  /** The JSON body; `None` stands for a missing or non-string field. */
  datatype Body = Body(nickname: Option<string>, password: Option<string>)

  /** Why the request was refused before calling the service. */
  datatype Refusal = NicknameRequired | PasswordRequired | NicknameLength | PasswordTooShort

  function RefusalMessage(r: Refusal): string {
    match r
    case NicknameRequired => "Nickname is required"
    case PasswordRequired => "Password is required"
    case NicknameLength => "Nickname must be 2-30 characters"
    case PasswordTooShort => "Password must be at least 6 characters"
  }

  /** The accepted fields: the trimmed nickname and the password. */
  datatype Credentials = Credentials(nickname: string, password: string)

  /** The checks of lines 27-52, in their order. */
  function Check(body: Body): (r: Result<Credentials, Refusal>)
    ensures r == Failure(NicknameRequired) <==> body.nickname.GetOr("") == ""
    ensures r == Failure(PasswordRequired) <==> body.nickname.GetOr("") != "" && body.password.GetOr("") == ""
    ensures r == Failure(NicknameLength) <==>
              && body.nickname.GetOr("") != "" && body.password.GetOr("") != ""
              && !(2 <= Utf16Length(Trim(body.nickname.value)) <= 30)
    ensures r == Failure(PasswordTooShort) <==>
              && body.nickname.GetOr("") != "" && body.password.GetOr("") != ""
              && 2 <= Utf16Length(Trim(body.nickname.value)) <= 30
              && Utf16Length(body.password.value) < 6
    ensures r.Success? ==>
              && body.nickname.Some? && body.password.Some?
              && r.value == Credentials(Trim(body.nickname.value), body.password.value)
              && 2 <= Utf16Length(r.value.nickname) <= 30 && Utf16Length(r.value.password) >= 6
  {
    if body.nickname.GetOr("") == "" then Failure(NicknameRequired)
    else if body.password.GetOr("") == "" then Failure(PasswordRequired)
    else
      var trimmed := Trim(body.nickname.value);
      if Utf16Length(trimmed) < 2 || Utf16Length(trimmed) > 30 then Failure(NicknameLength)
      else if Utf16Length(body.password.value) < 6 then Failure(PasswordTooShort)
      else Success(Credentials(trimmed, body.password.value))
  }

  const DEFAULT_DOMAIN: string := "holdemle.invalid"

  /** `process.env.AUTH_EMAIL_DOMAIN || "holdemle.invalid"`. */
  function Domain(env: Option<string>): (domain: string)
    ensures env.None? || env == Some("") ==> domain == DEFAULT_DOMAIN
  {
    if env.GetOr("") == "" then DEFAULT_DOMAIN else env.value
  }

  /** `${slug}_${generateShortId()}@${domain}`. */
  function AuthEmail(nickname: string, shortId: string, env: Option<string>): string {
    Slugify(nickname) + "_" + shortId + "@" + Domain(env)
  }

  /** With an id free of `@`, the address splits at its first `@` into the
      slug, `_`, the id, and the domain. */
  lemma AuthEmailParts(nickname: string, shortId: string, env: Option<string>)
    requires '@' !in shortId
    ensures var email := AuthEmail(nickname, shortId, env);
            var local := Slugify(nickname) + "_" + shortId;
            && BeforeFirst(email, '@') == local
            && email[|local| + 1..] == Domain(env)
            && IsSlugChar(local[0])
  {
    AddressParts(Slugify(nickname), shortId, Domain(env));
  }

  /** The same split for any non-empty slug and any domain. */
  lemma AddressParts(slug: string, shortId: string, domain: string)
    requires slug != [] && forall k :: 0 <= k < |slug| ==> IsSlugChar(slug[k])
    requires '@' !in shortId
    ensures var local := slug + "_" + shortId;
            var email := local + "@" + domain;
            && BeforeFirst(email, '@') == local
            && email[|local| + 1..] == domain
            && IsSlugChar(local[0])
  {
    var local := slug + "_" + shortId;
    assert '@' !in local by {
      assert forall k :: 0 <= k < |slug| ==> slug[k] != '@';
    }
    assert local + "@" + domain == local + ("@" + domain);
    PrefixBeforeSeparator(local, '@', domain);
    assert local[0] == slug[0];
  }

  lemma {:induction false} PrefixBeforeSeparator(a: string, sep: char, b: string)
    requires sep !in a
    ensures BeforeFirst(a + ([sep] + b), sep) == a
  {
    if a == [] {
      assert a + ([sep] + b) == [sep] + b;
    } else {
      assert a[0] in a;
      assert (a + ([sep] + b))[1..] == a[1..] + ([sep] + b);
      PrefixBeforeSeparator(a[1..], sep, b);
    }
  }

  /** The answer of `supabase.auth.signUp`. */
  datatype SignUpResult =
    | SignUpError(message: Option<string>, code: Option<string>)
    | SignedUp(hasSession: bool)

  /** The response: a refusal with its status and message, or success with
      the confirmation message when no session was returned. */
  datatype Response =
    | Refused(status: nat, error: string)
    | SignedIn(message: Option<string>)

  /** How the route rephrases an error of the service. */
  datatype Complaint = MayAlreadyExist | NicknameTaken | Reported(text: string)

  /** `msg.includes("already registered") || code === "user_already_exists"`. */
  predicate AlreadyRegistered(message: string, code: Option<string>) {
    Contains(message, "already registered") || code == Some("user_already_exists")
  }

  /** The lower-cased message mentions `nickname` or `unique`. */
  predicate MentionsNickname(message: string) {
    Contains(ToLowerAscii(message), "nickname") || Contains(ToLowerAscii(message), "unique")
  }

  /** Lines 68-85: the checks on the service's error, in their order; an
      absent message reads as the empty one. */
  function Classify(message: Option<string>, code: Option<string>): (c: Complaint)
    ensures c.MayAlreadyExist? <==> AlreadyRegistered(message.GetOr(""), code)
    ensures c.NicknameTaken? <==>
              !AlreadyRegistered(message.GetOr(""), code) && MentionsNickname(message.GetOr(""))
    ensures c.Reported? ==> c.text != [] && (c.text == message.GetOr("") || message.GetOr("") == [])
  {
    var m := message.GetOr("");
    if AlreadyRegistered(m, code) then MayAlreadyExist
    else if MentionsNickname(m) then NicknameTaken
    else Reported(if m == [] then "Sign up failed" else m)
  }

  function ComplaintText(c: Complaint): string {
    match c
    case MayAlreadyExist => "An account with this nickname may already exist. Try logging in."
    case NicknameTaken => "Nickname is already taken"
    case Reported(text) => text
  }

  const CHECK_EMAIL: string := "Account created. Please check your email to confirm."

  /** `POST(request)`; `None` is a body that does not parse. `signUp` is the
      service, given the address, the password and the nickname. */
  function Handle(body: Option<Body>, env: Option<string>, shortId: string,
                  signUp: (string, string, string) -> SignUpResult): (r: Response)
    ensures body.None? ==> r == Refused(500, "Something went wrong")
    ensures body.Some? && Check(body.value).Failure? ==>
              r == Refused(400, RefusalMessage(Check(body.value).error))
    ensures r.SignedIn? ==>
              && body.Some? && Check(body.value).Success?
              && var c := Check(body.value).value;
                 signUp(AuthEmail(c.nickname, shortId, env), c.password, c.nickname) == SignedUp(r.message.None?)
    ensures r.SignedIn? ==> r.message.None? || r.message == Some(CHECK_EMAIL)
    ensures body.Some? && Check(body.value).Success? ==>
              var c := Check(body.value).value;
              var answer := signUp(AuthEmail(c.nickname, shortId, env), c.password, c.nickname);
              && (answer.SignedUp? ==> r == SignedIn(if answer.hasSession then None else Some(CHECK_EMAIL)))
              && (answer.SignUpError? ==> r == Refused(400, ComplaintText(Classify(answer.message, answer.code))))
  {
    match body
    case None => Refused(500, "Something went wrong")
    case Some(b) =>
      match Check(b)
      case Failure(why) => Refused(400, RefusalMessage(why))
      case Success(c) =>
        match signUp(AuthEmail(c.nickname, shortId, env), c.password, c.nickname)
        case SignUpError(message, code) => Refused(400, ComplaintText(Classify(message, code)))
        case SignedUp(session) => SignedIn(if session then None else Some(CHECK_EMAIL))
  }

  /** Every refusal is a 400 except the unparsable body. */
  lemma RefusalStatus(body: Option<Body>, env: Option<string>, shortId: string,
                      signUp: (string, string, string) -> SignUpResult)
    ensures var r := Handle(body, env, shortId, signUp);
            r.Refused? ==> (r.status == 500 <==> body.None?) && (r.status == 400 <==> body.Some?)
  {
  }
}
