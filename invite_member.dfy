/** The invite dialog (components/organization/InviteMemberModal.tsx): the
    blank check, the simplified email pattern, the role choice limited to member
    and admin, and the `loading`/`error` transitions of a submit. */
module InviteMember {
  import opened Types
  import opened Text
  import MemberManagement

  const EmailRequired: string := "E-posta adresi gereklidir."
  const EmailInvalid: string := "Geçerli bir e-posta adresi girin."
  const InviteFailed: string := "Davet gönderilirken bir hata oluştu."

  /** The role select: member first (the default), then admin. */
  const RoleOptions: seq<MemberManagement.RoleOption> := [MemberManagement.MemberOption, MemberManagement.AdminOption]

  /** `[^\s@]`. */
  predicate EmailChar(c: char) {
    !IsJsSpace(c) && c != '@'
  }

  predicate EmailChars(s: string) {
    forall k :: 0 <= k < |s| ==> EmailChar(s[k])
  }

  /** `^[^\s@]+@[^\s@]+\.[^\s@]+$` read literally: a non-empty run, "@", a
      non-empty run, ".", a non-empty run, none of the runs holding white space or "@". */
  ghost predicate MatchesEmailPattern(s: string) {
    exists at, dot :: 0 < at && at + 1 < dot && dot + 1 < |s| && s[at] == '@' && s[dot] == '.' &&
      EmailChars(s[..at]) && EmailChars(s[at + 1..dot]) && EmailChars(s[dot + 1..])
  }

  /** A "." strictly inside `d`: neither its first nor its last character. */
  predicate HasInnerDot(d: string) {
    exists k :: 0 < k < |d| - 1 && d[k] == '.'
  }

  /** The same pattern stated as a check: no white space, exactly one "@" with
      something before it, and a domain with a "." that is neither its first nor
      its last character. */
  predicate IsValidEmail(s: string) {
    var at := |BeforeFirst(s, '@')|;
    NoSpace(s) && 0 < at < |s| && '@' !in s[at + 1..] && HasInnerDot(s[at + 1..])
  }

  lemma PatternGivesCheck(s: string)
    requires MatchesEmailPattern(s)
    ensures IsValidEmail(s)
  {
    var at, dot :| 0 < at && at + 1 < dot && dot + 1 < |s| && s[at] == '@' && s[dot] == '.' &&
      EmailChars(s[..at]) && EmailChars(s[at + 1..dot]) && EmailChars(s[dot + 1..]);
    FirstAtIs(s, at);
    var d := s[at + 1..];
    DomainChars(s, at, dot);
    assert d[dot - at - 1] == '.';
    forall k | 0 <= k < |s| ensures !IsJsSpace(s[k]) {
      if k < at {
        assert s[k] == s[..at][k];
      } else if k > at {
        var j := k - (at + 1);
        assert 0 <= j < |d| && d[j] == s[k];
        assert EmailChar(d[j]);
      }
    }
  }

  /** The "@" that ends an "@"-free prefix is the first one. */
  lemma FirstAtIs(s: string, at: int)
    requires 0 <= at < |s| && s[at] == '@' && EmailChars(s[..at])
    ensures |BeforeFirst(s, '@')| == at
  {
  }

  lemma DomainChars(s: string, at: int, dot: int)
    requires 0 < at && at + 1 < dot && dot + 1 < |s| && s[dot] == '.'
    requires EmailChars(s[at + 1..dot]) && EmailChars(s[dot + 1..])
    ensures EmailChars(s[at + 1..])
  {
    var d := s[at + 1..];
    forall k | 0 <= k < |d| ensures EmailChar(d[k]) {
      if k < dot - at - 1 {
        assert d[k] == s[at + 1..dot][k];
      } else if k > dot - at - 1 {
        assert d[k] == s[dot + 1..][k - (dot - at)];
      }
    }
  }

  lemma CheckGivesPattern(s: string)
    requires IsValidEmail(s)
    ensures MatchesEmailPattern(s)
  {
    var at := |BeforeFirst(s, '@')|;
    var d := s[at + 1..];
    var k :| 0 < k < |d| - 1 && d[k] == '.';
    var dot := at + 1 + k;
    assert s[at] == '@' && s[dot] == '.';
    assert s[..at] == BeforeFirst(s, '@');
    assert EmailChars(s[..at]);
    assert s[at + 1..dot] == d[..k];
    assert s[dot + 1..] == d[k + 1..];
  }

  /** The pattern and the check accept the same strings. */
  lemma EmailPatternIff(s: string)
    ensures MatchesEmailPattern(s) <==> IsValidEmail(s)
  {
    if MatchesEmailPattern(s) { PatternGivesCheck(s); }
    if IsValidEmail(s) { CheckGivesPattern(s); }
  }

  /** The validation of a submit: a blank address first, then the pattern on
      the trimmed address; None lets the invitation go out. */
  function ValidateInvite(email: string): (err: Option<string>)
    ensures err == None <==> !Blank(email) && IsValidEmail(Trim(email))
    ensures Blank(email) <==> err == Some(EmailRequired)
    ensures !Blank(email) && !IsValidEmail(Trim(email)) <==> err == Some(EmailInvalid)
  {
    if Blank(email) then Some(EmailRequired)
    else if !IsValidEmail(Trim(email)) then Some(EmailInvalid)
    else None
  }

  /** A white-space-only address never passes, and an accepted address, once
      trimmed, has exactly one "@". */
  lemma AcceptedEmailShape(email: string)
    requires ValidateInvite(email) == None
    ensures !AllSpace(email)
    ensures var t := Trim(email); var at := |BeforeFirst(t, '@')|;
      at < |t| && t[at] == '@' && '@' !in t[..at] && '@' !in t[at + 1..]
  {
    BlankIffAllSpace(email);
  }

  /** The answer of `onInvite`. */
  datatype InviteResult = InviteResult(success: bool, error: Option<string>)

  /** The request handed to `onInvite`: the address as typed and the chosen role. */
  datatype InviteRequest = InviteRequest(email: string, role: string)

  class InviteMemberModal {
    var email: string
    var role: string
    var loading: bool
    var error: string

    /** The role always comes from the select, so it is never "owner". */
    ghost predicate Valid()
      reads this
    {
      exists o :: o in RoleOptions && o.value == role
    }

    constructor ()
      ensures Valid()
      ensures email == "" && role == "member" && !loading && error == ""
    {
      email := "";
      role := "member";
      loading := false;
      error := "";
      new;
      assert RoleOptions[0].value == role;
    }

    /** Typing into the address field (disabled while loading). */
    method EditEmail(e: string)
      requires !loading
      modifies this`email
      ensures email == e
    {
      email := e;
    }

    /** Picking an entry of the role select (disabled while loading). */
    method SelectRole(o: MemberManagement.RoleOption)
      requires !loading && o in RoleOptions
      modifies this`role
      ensures Valid() && role == o.value
    {
      role := o.value;
    }

    /** The submit button is disabled while loading or while the address is blank. */
    function SubmitDisabled(): (disabled: bool)
      reads this
      ensures disabled <==> loading || AllSpace(email)
    {
      BlankIffAllSpace(email);
      loading || Blank(email)
    }

    /** Submit: validation failures set their message and clear `loading` without
        inviting; otherwise `onInvite` gets the untrimmed address and the role; a
        failed invitation shows its error, or the fallback when it has none, and
        clears `loading`; a successful one leaves `loading` set. */
    method Submit(result: InviteResult) returns (request: Option<InviteRequest>)
      requires Valid()
      modifies this`loading, this`error
      ensures Valid()
      ensures request.Some? <==> ValidateInvite(email) == None
      ensures request.Some? ==> request.value == InviteRequest(email, role)
      ensures request.Some? ==> request.value.role == "member" || request.value.role == "admin"
      ensures request.None? ==> error == ValidateInvite(email).value && !loading
      ensures request.Some? && !result.success ==>
        error == (if Present(result.error) then result.error.value else InviteFailed) && !loading
      ensures request.Some? && result.success ==> error == "" && loading
    {
      loading := true;
      error := "";
      var err := ValidateInvite(email);
      if err.Some? {
        error := err.value;
        loading := false;
        request := None;
        return;
      }
      request := Some(InviteRequest(email, role));
      if !result.success {
        error := if Present(result.error) then result.error.value else InviteFailed;
        loading := false;
      }
    }
  }
}
