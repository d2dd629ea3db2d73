/** The profile settings page (app/settings/page.tsx): the name suggested from
    an email address, the profile-load branches, the validation of a profile
    save and the record it writes. */
module Settings {
  import opened Types
  import opened Text

  const NameRequired: string := "Lütfen adınızı ve soyadınızı girin."
  const NameTooShort: string := "Ad soyad en az 2 karakter olmalıdır."
  const PhoneInvalid: string := "Geçersiz telefon numarası formatı."
  const SaveErrorPrefix: string := "Profil güncellenirken hata: "
  const Saved: string := "Profil başarıyla güncellendi!"

  // ---------------------------------------------------------------------------
  // Suggested name

  /** `\w`: ASCII letters, digits and underscore. */
  predicate IsWordChar(c: char) {
    ('a' <= c <= 'z') || ('A' <= c <= 'Z') || ('0' <= c <= '9') || c == '_'
  }

  /** `[._-]`. */
  predicate IsSeparator(c: char) {
    c == '.' || c == '_' || c == '-'
  }

  /** `s.replace(/[._-]/g, " ")`. */
  function SpaceSeparators(s: string): (r: string)
    ensures |r| == |s|
    ensures forall k :: 0 <= k < |s| ==> r[k] == if IsSeparator(s[k]) then ' ' else s[k]
  {
    if |s| == 0 then "" else [if IsSeparator(s[0]) then ' ' else s[0]] + SpaceSeparators(s[1..])
  }

  /** Where `\b\w` matches: a word character at the start or after a non-word character. */
  predicate WordStart(s: string, k: int)
    requires 0 <= k < |s|
  {
    IsWordChar(s[k]) && (k == 0 || !IsWordChar(s[k - 1]))
  }

  /** Whether the character before position `k` of `s` is a word character,
      `afterWord` standing for the one before `s`. */
  predicate AfterWord(s: string, k: int, afterWord: bool)
    requires 0 <= k <= |s|
  {
    if k == 0 then afterWord else IsWordChar(s[k - 1])
  }

  /** The left-to-right scan behind `replace(/\b\w/g, l => l.toUpperCase())`;
      `afterWord` says whether the character before `s` is a word character. */
  function CapitalizeFrom(s: string, afterWord: bool): (r: string)
    ensures |r| == |s|
    ensures forall k :: 0 <= k < |s| ==>
      r[k] == if IsWordChar(s[k]) && !AfterWord(s, k, afterWord) then UpperAscii(s[k]) else s[k]
  {
    if |s| == 0 then ""
    else
      var c := if IsWordChar(s[0]) && !afterWord then UpperAscii(s[0]) else s[0];
      var rest := CapitalizeFrom(s[1..], IsWordChar(s[0]));
      var r := [c] + rest;
      forall k | 1 <= k < |s|
        ensures r[k] == if IsWordChar(s[k]) && !AfterWord(s, k, afterWord) then UpperAscii(s[k]) else s[k]
      {
        assert r[k] == rest[k - 1] && s[1..][k - 1] == s[k];
        assert AfterWord(s[1..], k - 1, IsWordChar(s[0])) == AfterWord(s, k, afterWord);
      }
      r
  }

  /** `replace(/\b\w/g, l => l.toUpperCase())`: every character where `\b\w`
      matches is upper-cased, every other one is kept. */
  function CapitalizeWords(s: string): (r: string)
    ensures |r| == |s|
    ensures forall k :: 0 <= k < |s| ==> r[k] == if WordStart(s, k) then UpperAscii(s[k]) else s[k]
  {
    var r := CapitalizeFrom(s, false);
    assert forall k :: 0 <= k < |s| ==> AfterWord(s, k, false) == !(k == 0 || !IsWordChar(s[k - 1]));
    r
  }

  /** The name built from an address's local part. */
  function SuggestFrom(local: string): string {
    CapitalizeWords(SpaceSeparators(local))
  }

  /** The suggestion keeps the local part's length, turns every ".", "_" and "-"
      into a space and leaves no separator, keeps every other character up to
      ASCII case, and starts every word with a character that is not a lower-case
      ASCII letter. */
  lemma SuggestionShape(local: string)
    ensures var r := SuggestFrom(local);
      |r| == |local| &&
      (forall k :: 0 <= k < |r| ==> !IsSeparator(r[k])) &&
      (forall k :: 0 <= k < |r| && IsSeparator(local[k]) ==> r[k] == ' ') &&
      (forall k :: 0 <= k < |r| && !IsSeparator(local[k]) ==> r[k] == local[k] || r[k] == UpperAscii(local[k])) &&
      (forall k :: 0 <= k < |r| && WordStart(r, k) ==> !IsAsciiLower(r[k]))
  {
    var t := SpaceSeparators(local);
    var r := SuggestFrom(local);
    forall k | 0 <= k < |r| && WordStart(r, k) ensures !IsAsciiLower(r[k]) {
      assert IsWordChar(t[k]) == IsWordChar(r[k]);
      if k > 0 { assert IsWordChar(t[k - 1]) == IsWordChar(r[k - 1]); }
    }
  }

  /** Upper-casing keeps word characters word characters and others not. */
  lemma CapitalizeKeepsWordChars(t: string)
    ensures forall k :: 0 <= k < |t| ==> IsWordChar(CapitalizeWords(t)[k]) == IsWordChar(t[k])
  {
  }

  /** Suggesting a name from a suggestion changes nothing. */
  lemma {:induction false} SuggestionIdempotent(local: string)
    ensures SuggestFrom(SuggestFrom(local)) == SuggestFrom(local)
  {
    var t := SpaceSeparators(local);
    var r := CapitalizeWords(t);
    assert SpaceSeparators(r) == r;
    var r2 := CapitalizeWords(r);
    CapitalizeKeepsWordChars(t);
    forall k | 0 <= k < |r| ensures r2[k] == r[k] {
      if k > 0 {
        assert WordStart(r, k) == WordStart(t, k);
      }
    }
  }

  /** The name proposed when the user has no profile row: the local part of a
      non-empty address (before its first "@") made into words; "" without one. */
  function SuggestedName(email: Option<string>): (name: string)
    ensures Present(email) ==> |name| == |BeforeFirst(email.value, '@')| && '@' !in name
    ensures !Present(email) ==> name == ""
  {
    if Present(email) then
      var local := BeforeFirst(email.value, '@');
      assert forall k :: 0 <= k < |local| ==> SpaceSeparators(local)[k] != '@';
      SuggestFrom(local)
    else ""
  }

  // ---------------------------------------------------------------------------
  // Validation and the saved record

  /** `[\+\d\s\-\(\)]`. */
  predicate PhoneChar(c: char) {
    c == '+' || ('0' <= c <= '9') || IsJsSpace(c) || c == '-' || c == '(' || c == ')'
  }

  predicate PhoneChars(s: string) {
    forall k :: 0 <= k < |s| ==> PhoneChar(s[k])
  }

  /** The checks of a save, in their order: a blank name, a trimmed name shorter
      than two UTF-16 code units, then a non-blank phone with a character outside
      "+", digits, white space, "-", "(" and ")". None means the save proceeds. */
  function ValidateProfile(fullName: string, phone: string): (err: Option<string>)
    ensures Blank(fullName) <==> err == Some(NameRequired)
    ensures err == Some(NameTooShort) <==> !Blank(fullName) && Utf16Length(Trim(fullName)) < 2
    ensures err == Some(PhoneInvalid) <==>
      !Blank(fullName) && Utf16Length(Trim(fullName)) >= 2 && !Blank(phone) && !PhoneChars(Trim(phone))
    ensures err == None <==>
      !Blank(fullName) && Utf16Length(Trim(fullName)) >= 2 && (Blank(phone) || PhoneChars(Trim(phone)))
  {
    if Blank(fullName) then Some(NameRequired)
    else if Utf16Length(Trim(fullName)) < 2 then Some(NameTooShort)
    else if !Blank(phone) && !PhoneChars(Trim(phone)) then Some(PhoneInvalid)
    else None
  }

  /** A blank phone never fails validation: a name that passes decides. */
  lemma BlankPhonePasses(fullName: string, phone: string)
    requires AllSpace(phone)
    ensures ValidateProfile(fullName, phone) != Some(PhoneInvalid)
    ensures ValidateProfile(fullName, phone) == ValidateProfile(fullName, "")
  {
    BlankIffAllSpace(phone);
    BlankIffAllSpace("");
  }

  /** A name of one character from the Basic Multilingual Plane is too short;
      one character outside it already counts two code units and passes. */
  lemma OneCharacterNames(c: char)
    requires !IsJsSpace(c)
    ensures c as int < 0x10000 ==> ValidateProfile([c], "") == Some(NameTooShort)
    ensures c as int >= 0x10000 ==> ValidateProfile([c], "") == None
  {
    assert TrimStart([c]) == [c];
    assert TrimEnd([c]) == [c];
    assert Utf16Length([c]) == (if c as int < 0x10000 then 1 else 2) + Utf16Length([]);
    BlankIffAllSpace("");
  }

  datatype AuthUser = AuthUser(id: string, email: Option<string>)

  /** The row upserted into `profiles`. */
  datatype ProfileUpdate = ProfileUpdate(id: string, fullName: string, phone: string, position: string, avatarUrl: string)

  /** What a save writes: nothing without a user or when validation fails;
      otherwise the trimmed name, phone and position and the avatar URL as is. */
  function UpdateFor(user: Option<AuthUser>, fullName: string, phone: string, position: string, avatarUrl: string)
    : (u: Option<ProfileUpdate>)
    ensures u.Some? <==> user.Some? && ValidateProfile(fullName, phone) == None
    ensures u.Some? ==> u.value == ProfileUpdate(user.value.id, Trim(fullName), Trim(phone), Trim(position), avatarUrl)
  {
    if user.None? || ValidateProfile(fullName, phone).Some? then None
    else Some(ProfileUpdate(user.value.id, Trim(fullName), Trim(phone), Trim(position), avatarUrl))
  }

  /** A written record passes validation again unchanged and writing it again
      writes the same record. */
  lemma WrittenRecordRevalidates(user: Option<AuthUser>, fullName: string, phone: string, position: string,
                                 avatarUrl: string)
    requires UpdateFor(user, fullName, phone, position, avatarUrl).Some?
    ensures var u := UpdateFor(user, fullName, phone, position, avatarUrl).value;
      ValidateProfile(u.fullName, u.phone) == None &&
      UpdateFor(user, u.fullName, u.phone, u.position, u.avatarUrl) == Some(u)
  {
    TrimIdempotent(fullName);
    TrimIdempotent(phone);
    TrimIdempotent(position);
  }

  /** The profile kept after a failed load: every field blank. */
  function ErrorProfile(userId: string): Profile {
    Profile(userId, "", Some(""), Some(""), Some(""), "")
  }

  /** The profile kept when the user has no row yet: phone and position absent. */
  function MissingProfile(userId: string): Profile {
    Profile(userId, "", Some(""), None, None, "")
  }

  /** `{...profile, ...updates, created_at: profile?.created_at ?? ""}`: every
      written column replaces the profile's, and the creation time is kept. */
  function Merged(profile: Option<Profile>, u: ProfileUpdate): (p: Profile)
    ensures p.id == u.id && p.fullName == u.fullName && p.avatarUrl == Some(u.avatarUrl)
    ensures p.position == Some(u.position) && p.phone == Some(u.phone)
    ensures p.createdAt == if profile.Some? then profile.value.createdAt else ""
  {
    Profile(u.id, u.fullName, Some(u.avatarUrl), Some(u.position), Some(u.phone),
            if profile.Some? then profile.value.createdAt else "")
  }

  function OrEmpty(s: Option<string>): string {
    if s.Some? then s.value else ""
  }

  /** A saved profile, loaded back into the form the way a found row is, passes
      validation, and saving it again writes the same record. */
  lemma ReloadedProfileResaves(profile: Option<Profile>, user: AuthUser, fullName: string, phone: string,
                               position: string, avatarUrl: string)
    requires UpdateFor(Some(user), fullName, phone, position, avatarUrl).Some?
    ensures var u := UpdateFor(Some(user), fullName, phone, position, avatarUrl).value;
      var p := Merged(profile, u);
      ValidateProfile(p.fullName, OrEmpty(p.phone)) == None &&
      UpdateFor(Some(user), p.fullName, OrEmpty(p.phone), OrEmpty(p.position), OrEmpty(p.avatarUrl)) == Some(u)
  {
    WrittenRecordRevalidates(Some(user), fullName, phone, position, avatarUrl);
  }

  class SettingsPage {
    var user: Option<AuthUser>
    var profile: Option<Profile>
    var loading: bool
    var saving: bool
    var message: string
    var error: string
    var fullName: string
    var phone: string
    var position: string
    var avatarUrl: string

    constructor ()
      ensures user == None && profile == None && loading && !saving
      ensures message == "" && error == ""
      ensures fullName == "" && phone == "" && position == "" && avatarUrl == ""
    {
      user, profile := None, None;
      loading, saving := true, false;
      message, error := "", "";
      fullName, phone, position, avatarUrl := "", "", "", "";
    }

    /** Page load. Without a signed-in user the page redirects. Otherwise a failed
        profile fetch other than "no rows" blanks the profile and the form; a
        found row fills the form; no row proposes a name from the address and
        leaves phone and position as they were. `loading` ends on every path. */
    method GetUser(authUser: Option<AuthUser>, lookup: Lookup<Profile>) returns (redirected: bool)
      modifies this
      ensures !loading && saving == old(saving) && message == old(message) && error == old(error)
      ensures redirected <==> authUser.None?
      ensures authUser.None? ==>
        user == old(user) && profile == old(profile) && fullName == old(fullName) &&
        phone == old(phone) && position == old(position) && avatarUrl == old(avatarUrl)
      ensures authUser.Some? ==> user == authUser
      ensures authUser.Some? && lookup.StoreError? && lookup.code != NoRowsCode ==>
        profile == Some(ErrorProfile(authUser.value.id)) &&
        fullName == "" && phone == "" && position == "" && avatarUrl == ""
      ensures authUser.Some? && lookup.Row? ==>
        profile == Some(lookup.value) && fullName == lookup.value.fullName &&
        phone == OrEmpty(lookup.value.phone) && position == OrEmpty(lookup.value.position) &&
        avatarUrl == OrEmpty(lookup.value.avatarUrl)
      ensures authUser.Some? && lookup == StoreError(NoRowsCode) ==>
        profile == Some(MissingProfile(authUser.value.id)) &&
        fullName == SuggestedName(authUser.value.email) && avatarUrl == "" &&
        phone == old(phone) && position == old(position)
    {
      if authUser.None? {
        redirected := true;
        loading := false;
        return;
      }
      redirected := false;
      var u := authUser.value;
      user := authUser;
      match lookup {
        case StoreError(code) =>
          if code != NoRowsCode {
            profile := Some(ErrorProfile(u.id));
            fullName, phone, position, avatarUrl := "", "", "", "";
          } else {
            profile := Some(MissingProfile(u.id));
            fullName := SuggestedName(u.email);
            avatarUrl := "";
          }
        case Row(p) =>
          profile := Some(p);
          fullName := p.fullName;
          phone := OrEmpty(p.phone);
          position := OrEmpty(p.position);
          avatarUrl := OrEmpty(p.avatarUrl);
      }
      loading := false;
    }

    /** Save. Messages are cleared first; without a user nothing else happens; a
        validation failure sets its message and writes nothing; otherwise the
        record of `UpdateFor` is upserted, and on success the kept profile takes
        its fields and keeps its creation time. `saving` is false on every exit. */
    method UpdateProfile(storeError: Option<string>) returns (written: Option<ProfileUpdate>)
      modifies this`saving, this`error, this`message, this`profile
      ensures !saving
      ensures written == UpdateFor(user, fullName, phone, position, avatarUrl)
      ensures user.None? ==> error == "" && message == "" && profile == old(profile)
      ensures user.Some? && ValidateProfile(fullName, phone).Some? ==>
        error == ValidateProfile(fullName, phone).value && message == "" && profile == old(profile)
      ensures written.Some? && storeError.Some? ==>
        error == SaveErrorPrefix + storeError.value && message == "" && profile == old(profile)
      ensures written.Some? && storeError.None? ==>
        error == "" && message == Saved && profile == Some(Merged(old(profile), written.value))
    {
      saving := true;
      error := "";
      message := "";
      written := UpdateFor(user, fullName, phone, position, avatarUrl);
      if user.None? {
        saving := false;
        return;
      }
      var invalid := ValidateProfile(fullName, phone);
      if invalid.Some? {
        error := invalid.value;
        saving := false;
        return;
      }
      ghost var form := (user, fullName, phone, position, avatarUrl);
      StoreUpdate(written.value, storeError);
      assert form == (user, fullName, phone, position, avatarUrl);
      saving := false;
    }

    /** The upsert and what follows it: a store error is reported with its text;
        success shows the confirmation and merges the record into the profile. */
    method StoreUpdate(u: ProfileUpdate, storeError: Option<string>)
      modifies this`error, this`message, this`profile
      ensures storeError.Some? ==>
        error == SaveErrorPrefix + storeError.value && message == old(message) && profile == old(profile)
      ensures storeError.None? ==>
        error == old(error) && message == Saved && profile == Some(Merged(old(profile), u))
    {
      if storeError.Some? {
        error := SaveErrorPrefix + storeError.value;
        return;
      }
      message := Saved;
      profile := Some(Merged(profile, u));
    }
  }
}
