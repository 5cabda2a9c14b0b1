/**
 * The request schemas for `/auth/login` and `/auth/register`, and what `safeParse`
 * makes of a request body under them.
 *
 * Each field runs its checks in order and every failing check adds an issue
 * (the checks are not aborting, so a short username with a bad character gets
 * two issues); the issues of the fields come in the order the schema lists them.
 * Lengths are JavaScript lengths: UTF-16 code units. Both regular expressions
 * are used without flags, so `.` does not match a line terminator and `$` only
 * matches at the very end.
 */
module AuthSchema {
  import opened Text

  const UsernameMinMessage := "Username must be 3 characters or more"
  const UsernameRegexMessage := "Username can only contain letters, numbers, dots, and underscores"
  const PasswordMinMessage := "Password must be at least 6 characters"
  const PasswordRegexMessage := "Password must be at least 8 characters and include uppercase, lowercase, number, and special character"

  /** One validation failure: the field it concerns and its message. */
  datatype Issue = Issue(path: string, message: string)

  /** A JSON request body with the three string fields the schemas look at. */
  datatype Body = Body(username: string, email: string, password: string)

  /** `parsed.data`: only the keys of the schema survive parsing. */
  datatype Validated =
    | LoginFields(username: string, password: string)
    | RegisterFields(username: string, email: string, password: string)

  /** The result of `schema.safeParse(body)`. */
  datatype ParseResult = Parsed(data: Validated) | Rejected(issues: seq<Issue>)

  /**
   * `z.email()`: the library's e-mail check is not modelled; it is a predicate
   * together with the message of its issue.
   */
  datatype EmailRule = EmailRule(accepts: string -> bool, message: string)

  predicate IsLower(c: char) { 'a' <= c <= 'z' }

  predicate IsUpper(c: char) { 'A' <= c <= 'Z' }

  /** The class `[a-zA-Z0-9._]`. */
  predicate IsUsernameChar(c: char)
  {
    IsLower(c) || IsUpper(c) || IsDigit(c) || c == '.' || c == '_'
  }

  /** `/^[a-zA-Z0-9._]+$/`: one or more characters, all from the class. */
  predicate UsernameRegex(s: string)
  {
    |s| >= 1 && forall i :: 0 <= i < |s| ==> IsUsernameChar(s[i])
  }

  /** The class `[!@#$%^&*()_+\-=[\]{}|;:'",.<>/?]` of the password rule. */
  const SpecialChars := "!@#$%^&*()_+-=[]{}|;:'\",.<>/?"

  predicate IsSpecial(c: char)
  {
    c in SpecialChars
  }

  /** The characters JavaScript's `.` refuses without the `s` flag. */
  predicate IsLineTerminator(c: char)
  {
    c == '\n' || c == '\r' || c == '\U{2028}' || c == '\U{2029}'
  }

  predicate NoLineTerminator(s: string)
  {
    forall i :: 0 <= i < |s| ==> !IsLineTerminator(s[i])
  }

  /** The four classes the password lookaheads ask for: `[a-z]`, `[A-Z]`, `\d` and the special class. */
  datatype CharClass = Lower | Upper | Digit | Special

  predicate InClass(c: char, k: CharClass)
  {
    match k
    case Lower => IsLower(c)
    case Upper => IsUpper(c)
    case Digit => IsDigit(c)
    case Special => IsSpecial(c)
  }

  /** `(?=.*[k])` at the start of the input: a character of class k with no line terminator before it. */
  predicate Lookahead(s: string, k: CharClass)
  {
    exists i :: 0 <= i < |s| && InClass(s[i], k) && NoLineTerminator(s[..i])
  }

  /** `.{8,}$` at the start of the input: eight or more UTF-16 code units to the end, none a line terminator. */
  predicate DotRun(s: string)
  {
    NoLineTerminator(s) && Utf16Length(s) >= 8
  }

  /** `/^(?=.*[a-z])(?=.*[A-Z])(?=.*\d)(?=.*[special]).{8,}$/` */
  predicate PasswordRegex(s: string)
  {
    Lookahead(s, Lower) && Lookahead(s, Upper) && Lookahead(s, Digit) && Lookahead(s, Special) && DotRun(s)
  }

  /** `z.string().min(3, …).regex(/^[a-zA-Z0-9._]+$/, …)` on the username. */
  function UsernameIssues(s: string): seq<Issue>
  {
    (if Utf16Length(s) < 3 then [Issue("username", UsernameMinMessage)] else [])
    + (if !UsernameRegex(s) then [Issue("username", UsernameRegexMessage)] else [])
  }

  /** `z.string().min(6, …).regex(…, …)` on the password. */
  function PasswordIssues(s: string): seq<Issue>
  {
    (if Utf16Length(s) < 6 then [Issue("password", PasswordMinMessage)] else [])
    + (if !PasswordRegex(s) then [Issue("password", PasswordRegexMessage)] else [])
  }

  function EmailIssues(s: string, rule: EmailRule): seq<Issue>
  {
    if rule.accepts(s) then [] else [Issue("email", rule.message)]
  }

  predicate UsernameAccepted(s: string)
  {
    UsernameIssues(s) == []
  }

  predicate PasswordAccepted(s: string)
  {
    PasswordIssues(s) == []
  }

  /** `loginSchema.safeParse(body)`. */
  function LoginParse(b: Body): ParseResult
  {
    var issues := UsernameIssues(b.username) + PasswordIssues(b.password);
    if issues == [] then Parsed(LoginFields(b.username, b.password)) else Rejected(issues)
  }

  /** `registerSchema.safeParse(body)`. */
  function RegisterParse(b: Body, rule: EmailRule): ParseResult
  {
    var issues := UsernameIssues(b.username) + EmailIssues(b.email, rule) + PasswordIssues(b.password);
    if issues == [] then Parsed(RegisterFields(b.username, b.email, b.password)) else Rejected(issues)
  }

  /** An accepted username is at least 3 characters long and uses only letters, digits, '.' and '_'; and conversely. */
  lemma UsernameAcceptedMeaning(s: string)
    ensures UsernameAccepted(s) <==> |s| >= 3 && forall i :: 0 <= i < |s| ==> IsUsernameChar(s[i])
  {
    if forall i :: 0 <= i < |s| ==> IsUsernameChar(s[i]) {
      assert forall i :: 0 <= i < |s| ==> !IsAstral(s[i]);
    }
  }

  predicate HasClass(s: string, k: CharClass)
  {
    exists i :: 0 <= i < |s| && InClass(s[i], k)
  }

  /**
   * What the password expression means once its parts are put together: at
   * least 8 UTF-16 code units, no line terminator anywhere, and a lowercase
   * letter, an uppercase letter, a digit and a special character somewhere.
   */
  lemma {:induction false} PasswordRegexMeaning(s: string)
    ensures PasswordRegex(s) <==>
      && NoLineTerminator(s) && Utf16Length(s) >= 8
      && HasClass(s, Lower) && HasClass(s, Upper) && HasClass(s, Digit) && HasClass(s, Special)
  {
    if NoLineTerminator(s) {
      forall k | HasClass(s, k) ensures Lookahead(s, k) {
        var i :| 0 <= i < |s| && InClass(s[i], k);
        assert NoLineTerminator(s[..i]);
      }
    }
  }

  /** The `min(6)` check never decides anything: a password is accepted exactly when the expression matches. */
  lemma PasswordMinSubsumed(s: string)
    ensures PasswordAccepted(s) <==> PasswordRegex(s)
    ensures PasswordRegex(s) ==> Utf16Length(s) >= 6
  {
  }

  /** A password with no character from the special class is refused, whatever else it holds (`~`, a space, '`', '\'). */
  lemma UnlistedSymbolsRejected(s: string)
    requires forall i :: 0 <= i < |s| ==> !IsSpecial(s[i])
    ensures !PasswordAccepted(s)
    ensures PasswordIssues(s)[|PasswordIssues(s)| - 1] == Issue("password", PasswordRegexMessage)
  {
    PasswordRegexMeaning(s);
  }

  /** The two schemas apply the same username and password rules; registration only adds the e-mail check. */
  lemma SameRulesForLoginAndRegister(b: Body, rule: EmailRule)
    ensures RegisterParse(b, rule).Parsed? <==> LoginParse(b).Parsed? && rule.accepts(b.email)
    ensures LoginParse(b).Parsed? <==> UsernameAccepted(b.username) && PasswordAccepted(b.password)
  {
  }

  /**
   * A password of at least 8 characters, none astral and none a line
   * terminator, with a character of each class at the given positions, is
   * accepted.
   */
  lemma AcceptedWithWitnesses(s: string, lower: nat, upper: nat, digit: nat, special: nat)
    requires |s| >= 8 && NoLineTerminator(s)
    requires forall i :: 0 <= i < |s| ==> !IsAstral(s[i])
    requires lower < |s| && IsLower(s[lower])
    requires upper < |s| && IsUpper(s[upper])
    requires digit < |s| && IsDigit(s[digit])
    requires special < |s| && IsSpecial(s[special])
    ensures PasswordAccepted(s)
  {
    assert InClass(s[lower], Lower) && InClass(s[upper], Upper) && InClass(s[digit], Digit) && InClass(s[special], Special);
    PasswordRegexMeaning(s);
  }

  /** A worked example: "Passw0rd!" passes the password rule. */
  lemma ExamplePasswordAccepted()
    ensures PasswordAccepted("Passw0rd!")
  {
    var s := "Passw0rd!";
    assert forall i :: 0 <= i < |s| ==> !IsAstral(s[i]) && !IsLineTerminator(s[i]);
    assert IsSpecial(s[8]) by {
      assert s[8] == SpecialChars[0];
    }
    AcceptedWithWitnesses(s, 1, 0, 5, 8);
  }

  /** An empty username fails both of its checks, in order, and with an accepted password those are the only issues. */
  lemma EmptyUsernameIssues(email: string, password: string)
    requires PasswordAccepted(password)
    ensures LoginParse(Body("", email, password))
         == Rejected([Issue("username", UsernameMinMessage), Issue("username", UsernameRegexMessage)])
  {
    assert UsernameIssues("") == [Issue("username", UsernameMinMessage), Issue("username", UsernameRegexMessage)];
  }

  /** The same with '~', a character outside the special class, is refused. */
  lemma ExampleTildeRejected()
    ensures !PasswordAccepted("Passw0rd~")
  {
    var s := "Passw0rd~";
    forall i | 0 <= i < |s| ensures !IsSpecial(s[i]) {
    }
    UnlistedSymbolsRejected(s);
  }

  /** Eight characters with a newline in them are refused although every class is present. */
  lemma ExampleLineTerminatorRejected()
    ensures !PasswordAccepted("Pass\nw0rd!")
  {
    assert IsLineTerminator("Pass\nw0rd!"[4]);
  }
}
