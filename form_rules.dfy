/**
 * The validators shared by the sign-in, sign-up and password-reset forms: the e-mail
 * pattern `/^[^\s@]+@[^\s@]+\.[^\s@]+$/`, the five password requirements, and the
 * error message each validator returns ("" meaning "no error").
 */
module FormRules {
  import opened Common
  import opened Text

  // ---------------------------------------------------------------- e-mail

  /** A character the class `[^\s@]` accepts. */
  predicate EmailChar(c: char) { !IsJsWhitespace(c) && c != '@' }

  /**
   * The regular expression matches with its `@` at index `at` and its escaped `\.`
   * at index `dot`: every other character belongs to `[^\s@]`, and each of the three
   * `+` runs (before `@`, between `@` and `.`, after `.`) is non-empty.
   */
  ghost predicate EmailMatchAt(s: string, at: int, dot: int)
  {
    0 < at && at + 1 < dot && dot + 1 < |s| && s[at] == '@' && s[dot] == '.' &&
    forall k :: 0 <= k < |s| && k != at ==> EmailChar(s[k])
  }

  /** `emailRegex.test(s)`: some choice of `@` and `.` positions matches. */
  ghost predicate EmailRegexMatches(s: string)
  {
    exists at, dot :: EmailMatchAt(s, at, dot)
  }

  predicate NoWhitespace(s: string) { forall k :: 0 <= k < |s| ==> !IsJsWhitespace(s[k]) }

  /**
   * The pattern read as plain conditions: no whitespace, a non-empty part before the
   * first `@`, no second `@`, and a `.` in the domain with a character on each side.
   */
  predicate EmailWellFormed(s: string)
  {
    '@' in s && NoWhitespace(s) &&
    var at := IndexOf(s, '@');
    var domain := s[at + 1..];
    at > 0 && '@' !in domain && |domain| >= 3 && '.' in domain[1..|domain| - 1]
  }

  /** The regular expression accepts exactly the well-formed addresses. */
  lemma EmailRegexIff(s: string)
    ensures EmailRegexMatches(s) <==> EmailWellFormed(s)
  {
    if EmailRegexMatches(s) {
      var at, dot :| EmailMatchAt(s, at, dot);
      EmailMatchWellFormed(s, at, dot);
    }
    if EmailWellFormed(s) {
      var at := IndexOf(s, '@');
      var domain := s[at + 1..];
      var inner := domain[1..|domain| - 1];
      var j :| 0 <= j < |inner| && inner[j] == '.';
      assert s[at + 2 + j] == '.';
      forall k | 0 <= k < |s| && k != at
        ensures EmailChar(s[k])
      {
        if k < at {
          assert s[k] in s[..at];
        } else {
          assert s[k] == domain[k - at - 1];
        }
      }
      assert EmailMatchAt(s, at, at + 2 + j);
    }
  }

  lemma EmailMatchWellFormed(s: string, at: int, dot: int)
    requires EmailMatchAt(s, at, dot)
    ensures EmailWellFormed(s) && IndexOf(s, '@') == at
  {
    assert s[at] in s;
    var domain := s[at + 1..];
    forall k | 0 <= k < |domain|
      ensures domain[k] != '@'
    {
      assert domain[k] == s[at + 1 + k];
    }
    var inner := domain[1..|domain| - 1];
    assert inner[dot - at - 2] == '.';
  }

  /** An address the pattern accepts holds exactly one `@`. */
  lemma EmailHasOneAt(s: string)
    requires EmailRegexMatches(s)
    ensures multiset(s)['@'] == 1
  {
    var at, dot :| EmailMatchAt(s, at, dot);
    assert s == s[..at] + [s[at]] + s[at + 1..];
    assert '@' !in s[..at] by {
      forall k | 0 <= k < at ensures s[..at][k] != '@' { assert !(s[k] == '@'); }
    }
    assert '@' !in s[at + 1..] by {
      var tail := s[at + 1..];
      forall k | 0 <= k < |tail| ensures tail[k] != '@' {
        assert tail[k] == s[at + 1 + k];
      }
    }
    assert multiset(s) == multiset(s[..at]) + multiset([s[at]]) + multiset(s[at + 1..]);
  }

  /** `validateEmail` of the sign-in and sign-up forms: required first, then the pattern. */
  function ValidateEmail(email: string): (msg: string)
    ensures msg == "Email é obrigatório" <==> email == ""
    ensures msg == "Informe um email válido" <==> email != "" && !EmailRegexMatches(email)
    ensures msg == "" <==> EmailRegexMatches(email)
  {
    EmailRegexIff(email);
    if email == "" then "Email é obrigatório"
    else if !EmailWellFormed(email) then "Informe um email válido"
    else ""
  }

  // ---------------------------------------------------------------- passwords

  /** The characters `.` does not match (JavaScript line terminators). */
  predicate IsLineTerminator(c: char)
  {
    c == '\n' || c == '\r' || c == '\U{2028}' || c == '\U{2029}'
  }

  /** Eight characters `.` matches, starting at `i`. */
  predicate EightFrom(s: string, i: int)
  {
    0 <= i && i + 8 <= |s| && forall k :: i <= k < i + 8 ==> !IsLineTerminator(s[k])
  }

  /** `/.{8,}/.test(s)`. */
  ghost predicate HasEightRun(s: string) { exists i :: EightFrom(s, i) }

  /**
   * A single left-to-right scan that counts the current run of non-terminators,
   * `run` of them having been seen just before `s`.
   */
  function RunScan(s: string, run: nat): bool
    decreases |s|
  {
    if run >= 8 then true
    else if s == [] then false
    else RunScan(s[1..], if IsLineTerminator(s[0]) then 0 else run + 1)
  }

  /** The scan with a fresh counter decides `/.{8,}/`. */
  lemma RunScanDecides(s: string)
    ensures RunScan(s, 0) <==> HasEightRun(s)
  {
    RunScanGeneral(s, 0);
    if 8 <= |s| && (forall k :: 0 <= k < 8 ==> !IsLineTerminator(s[k])) {
      assert EightFrom(s, 0);
    }
  }

  /**
   * With `run` clean characters before `s`, the scan succeeds exactly when the first
   * `8 - run` characters complete that run or `s` holds eight clean ones of its own.
   */
  lemma {:induction false} RunScanGeneral(s: string, run: nat)
    requires run < 8
    ensures RunScan(s, run) <==>
      (8 - run <= |s| && (forall k :: 0 <= k < 8 - run ==> !IsLineTerminator(s[k]))) ||
      HasEightRun(s)
    decreases |s|
  {
    if s != [] {
      var t := s[1..];
      ShiftEight(s);
      if IsLineTerminator(s[0]) {
        RunScanGeneral(t, 0);
        if HasEightRun(s) {
          var i :| EightFrom(s, i);
          assert i != 0 by { assert !(!IsLineTerminator(s[0])); }
          assert EightFrom(t, i - 1);
        }
        if 8 <= |t| && (forall k :: 0 <= k < 8 ==> !IsLineTerminator(t[k])) {
          assert EightFrom(t, 0);
        }
      } else if run + 1 < 8 {
        RunScanGeneral(t, run + 1);
        if HasEightRun(s) {
          var i :| EightFrom(s, i);
          if i > 0 {
            assert EightFrom(t, i - 1);
          } else {
            forall k | 0 <= k < 8 - run ensures !IsLineTerminator(s[k]) { }
          }
        }
        if 8 - run <= |s| && (forall k :: 0 <= k < 8 - run ==> !IsLineTerminator(s[k])) {
          forall k | 0 <= k < 8 - (run + 1) ensures !IsLineTerminator(t[k]) {
            assert t[k] == s[k + 1];
          }
        }
        if 7 - run <= |t| && (forall k :: 0 <= k < 7 - run ==> !IsLineTerminator(t[k])) {
          forall k | 0 <= k < 8 - run ensures !IsLineTerminator(s[k]) {
            if k > 0 { assert s[k] == t[k - 1]; }
          }
        }
      }
    } else {
      assert !HasEightRun(s);
    }
  }

  /** A window in the tail is a window one place later in the whole string. */
  lemma ShiftEight(s: string)
    requires s != []
    ensures HasEightRun(s[1..]) ==> HasEightRun(s)
  {
    if HasEightRun(s[1..]) {
      var i :| EightFrom(s[1..], i);
      forall k | i + 1 <= k < i + 9 ensures !IsLineTerminator(s[k]) {
        assert s[k] == s[1..][k - 1];
      }
      assert EightFrom(s, i + 1);
    }
  }

  predicate IsLower(c: char) { 'a' <= c <= 'z' }
  predicate IsUpper(c: char) { 'A' <= c <= 'Z' }
  predicate IsAlphanumeric(c: char) { IsLower(c) || IsUpper(c) || IsDigit(c) }

  /** The five rules of the password checklist. */
  datatype Rule = MinLength | Lowercase | Uppercase | Digit | Special

  /** `requirement.regex.test(password)`. */
  function Satisfies(rule: Rule, s: string): bool
  {
    match rule
    case MinLength => RunScan(s, 0)
    case Lowercase => exists k :: 0 <= k < |s| && IsLower(s[k])
    case Uppercase => exists k :: 0 <= k < |s| && IsUpper(s[k])
    case Digit => exists k :: 0 <= k < |s| && IsDigit(s[k])
    case Special => exists k :: 0 <= k < |s| && !IsAlphanumeric(s[k])
  }

  /**
   * A password meeting all five requirements: eight characters in a row without a
   * line break, a lowercase and an uppercase ASCII letter, a digit, and a character
   * that is none of those.
   */
  ghost predicate StrongPassword(s: string)
  {
    HasEightRun(s) &&
    (exists k :: 0 <= k < |s| && IsLower(s[k])) &&
    (exists k :: 0 <= k < |s| && IsUpper(s[k])) &&
    (exists k :: 0 <= k < |s| && IsDigit(s[k])) &&
    (exists k :: 0 <= k < |s| && !IsAlphanumeric(s[k]))
  }

  datatype Requirement = Requirement(rule: Rule, message: string)

  /** The checklist shown under the sign-up password field, with its own wording. */
  const SignUpRequirements: seq<Requirement> := [
    Requirement(MinLength, "Pelo menos 8 caracteres"),
    Requirement(Lowercase, "Pelo menos 1 letra minúscula"),
    Requirement(Uppercase, "Pelo menos 1 letra maiúscula"),
    Requirement(Digit, "Pelo menos 1 númeri"),
    Requirement(Special, "Pelo menos 1 caracter especial")
  ]

  /** The checklist of the password-reset form. */
  const ResetRequirements: seq<Requirement> := [
    Requirement(MinLength, "Pelo menos 8 caracteres"),
    Requirement(Lowercase, "Pelo menos 1 letra minúscula"),
    Requirement(Uppercase, "Pelo menos 1 letra maiúscula"),
    Requirement(Digit, "Pelo menos 1 número"),
    Requirement(Special, "Pelo menos 1 caractere especial")
  ]

  /** `passwordRequirements.filter((r) => !r.regex.test(password))`. */
  function FailedRequirements(reqs: seq<Requirement>, password: string): (r: seq<Requirement>)
    ensures forall q :: q in r <==> q in reqs && !Satisfies(q.rule, password)
  {
    var p := (q: Requirement) => !Satisfies(q.rule, password);
    forall q ensures q in Filter(reqs, p) <==> q in reqs && p(q) {
      FilterMembers(reqs, p, q);
    }
    Filter(reqs, p)
  }

  predicate ChecksAllRules(reqs: seq<Requirement>)
  {
    |reqs| == 5 && reqs[0].rule == MinLength && reqs[1].rule == Lowercase &&
    reqs[2].rule == Uppercase && reqs[3].rule == Digit && reqs[4].rule == Special
  }

  /** A checklist of the five rules fails nothing exactly on a strong password. */
  lemma NoneFailedIffStrong(reqs: seq<Requirement>, password: string)
    requires ChecksAllRules(reqs)
    ensures FailedRequirements(reqs, password) == [] <==> StrongPassword(password)
  {
    var failed := FailedRequirements(reqs, password);
    RunScanDecides(password);
    if failed == [] {
      assert forall i :: 0 <= i < 5 ==> reqs[i] !in failed;
    } else {
      assert failed[0] in failed;
    }
  }

  /** Both forms' requirement lists cover the five rules, in order. */
  lemma RequirementListsComplete()
    ensures ChecksAllRules(SignUpRequirements) && ChecksAllRules(ResetRequirements)
    ensures forall i :: 0 <= i < 5 ==> SignUpRequirements[i].rule == ResetRequirements[i].rule
  {
  }

  /**
   * The check marks beside the requirement list: one per requirement, ticked when the
   * password meets it. All are ticked exactly on a strong password.
   */
  function Checklist(reqs: seq<Requirement>, password: string): (marks: seq<bool>)
    requires ChecksAllRules(reqs)
    ensures |marks| == |reqs|
    ensures forall i :: 0 <= i < |reqs| ==> marks[i] == (reqs[i] !in FailedRequirements(reqs, password))
    ensures (forall i :: 0 <= i < |marks| ==> marks[i]) <==> StrongPassword(password)
  {
    RunScanDecides(password);
    Map(reqs, (q: Requirement) => Satisfies(q.rule, password))
  }

  /**
   * `validatePassword` of the sign-up and reset forms: `required` when empty,
   * `failMessage` when a requirement fails, otherwise "".
   */
  function ValidateAgainst(password: string, reqs: seq<Requirement>, failMessage: string): (msg: string)
    requires ChecksAllRules(reqs) && failMessage != ""
    ensures msg == "" <==> StrongPassword(password)
    ensures password == "" ==> msg == "Senha é obrigatória"
    ensures password != "" && !StrongPassword(password) ==> msg == failMessage
  {
    NoneFailedIffStrong(reqs, password);
    if password == "" then "Senha é obrigatória"
    else if |FailedRequirements(reqs, password)| > 0 then failMessage
    else ""
  }

  function ValidateSignUpPassword(password: string): (msg: string)
    ensures msg == "" <==> StrongPassword(password)
    ensures password == "" ==> msg == "Senha é obrigatória"
    ensures password != "" && !StrongPassword(password) ==> msg == "Senha não atende aos requisitos"
  {
    ValidateAgainst(password, SignUpRequirements, "Senha não atende aos requisitos")
  }

  function ValidateResetPassword(password: string): (msg: string)
    ensures msg == "" <==> StrongPassword(password)
    ensures password == "" ==> msg == "Senha é obrigatória"
    ensures password != "" && !StrongPassword(password) ==> msg == "A senha não atende aos requisitos"
  {
    ValidateAgainst(password, ResetRequirements, "A senha não atende aos requisitos")
  }

  /** `validatePassword` of the sign-in form: only presence and length are checked. */
  function ValidateSignInPassword(password: string): (msg: string)
    ensures msg == "Senha é obrigatória" <==> password == ""
    ensures msg == "Senha deve ter pelo menos 8 caracteres" <==> 0 < |password| < 8
    ensures msg == "" <==> |password| >= 8
  {
    if password == "" then "Senha é obrigatória"
    else if |password| < 8 then "Senha deve ter pelo menos 8 caracteres"
    else ""
  }

  /** A password the sign-up form accepts also passes the sign-in check. */
  lemma StrongPasswordSignsIn(password: string)
    requires StrongPassword(password)
    ensures ValidateSignInPassword(password) == ""
  {
    var i :| EightFrom(password, i);
  }

  /** `validateConfirmPassword`: present first, then equal to the password field. */
  function ValidateConfirmPassword(confirm: string, password: string): (msg: string)
    ensures msg == "Por favor, confirme sua senha" <==> confirm == ""
    ensures msg == "As senhas não coincidem" <==> confirm != "" && confirm != password
    ensures msg == "" <==> confirm != "" && confirm == password
  {
    if confirm == "" then "Por favor, confirme sua senha"
    else if confirm != password then "As senhas não coincidem"
    else ""
  }

  /** `validateName` of the sign-up form. */
  function ValidateName(name: string): (msg: string)
    ensures msg == "" <==> name != ""
    ensures msg != "" ==> msg == "Nome é obrigatório"
  {
    if name == "" then "Nome é obrigatório" else ""
  }
}
