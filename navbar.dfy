/** The top bar (components/Navbar.tsx): the initials and colour of the
    fallback avatar, and the name in the greeting. */
module Navbar {
  import opened Types
  import opened Text

  /** The fallback avatar colours, in their order. */
  const AvatarColors: seq<string> := [
    "bg-blue-500", "bg-green-500", "bg-purple-500", "bg-yellow-500",
    "bg-red-500", "bg-indigo-500", "bg-pink-500", "bg-gray-500"
  ]

  const NoInitials: string := "?"
  const MenuFallbackName: string := "Kullanıcı"

  // ---------------------------------------------------------------------------
  // Initials

  /** `pieces.map(n => n[0]).join("")`: the first character of each piece, an
      empty piece contributing nothing. */
  function FirstChars(pieces: seq<string>): (r: string)
    ensures |r| <= |pieces|
  {
    if |pieces| == 0 then ""
    else (if pieces[0] == "" then "" else [pieces[0][0]]) + FirstChars(pieces[1..])
  }

  /** The letters that start a word of `s`, read directly: every character other
      than a space that begins `s` (when `afterSpace`) or follows a space. */
  function WordInitials(s: string, afterSpace: bool): (r: string)
    ensures |r| <= |s|
    ensures ' ' !in r
  {
    if |s| == 0 then ""
    else (if s[0] != ' ' && afterSpace then [s[0]] else "") + WordInitials(s[1..], s[0] == ' ')
  }

  /** Splitting on " " and taking each piece's first character finds exactly the
      word-initial letters; the pieces after the first find those after the first
      character. */
  lemma {:induction false} SplitFindsWordInitials(s: string)
    ensures FirstChars(Split(s, ' ')) == WordInitials(s, true)
    ensures FirstChars(Split(s, ' ')[1..]) == WordInitials(s, false)
    decreases |s|
  {
    if |s| > 0 {
      SplitFindsWordInitials(s[1..]);
      var rest := Split(s[1..], ' ');
      if s[0] == ' ' {
        assert Split(s, ' ') == [""] + rest;
        assert Split(s, ' ')[1..] == rest;
      } else {
        var r := Split(s, ' ');
        assert r == [[s[0]] + rest[0]] + rest[1..];
        assert r[1..] == rest[1..];
      }
    }
  }

  /** The first two characters, or fewer when there are fewer: `slice(0, 2)`. */
  function FirstTwo(s: string): (r: string)
    ensures |r| <= 2 && |r| <= |s| && r == s[..|r|]
    ensures |r| == if |s| < 2 then |s| else 2
  {
    if |s| < 2 then s else s[..2]
  }

  /** `getInitials`: "?" for an absent or empty name; otherwise the first letter
      of each space-separated word, upper-cased, at most two of them. */
  function GetInitials(name: Option<string>): (r: string)
    ensures !Present(name) ==> r == NoInitials
    ensures |r| <= 2
    ensures Present(name) ==> ' ' !in r
  {
    if !Present(name) then NoInitials
    else
      var initials := UpperAsciiString(FirstChars(Split(name.value, ' ')));
      SplitFindsWordInitials(name.value);
      assert forall k :: 0 <= k < |initials| ==> initials[k] != ' ';
      FirstTwo(initials)
  }

  /** A present name's initials are its first two word-initial letters,
      upper-cased. */
  lemma InitialsAreWordInitials(name: string)
    requires name != ""
    ensures GetInitials(Some(name)) == FirstTwo(UpperAsciiString(WordInitials(name, true)))
  {
    SplitFindsWordInitials(name);
  }

  /** When the first two words are non-empty, the initials are their first
      letters, upper-cased. */
  lemma TwoWordInitials(name: string)
    requires |Split(name, ' ')| >= 2 && Split(name, ' ')[0] != "" && Split(name, ' ')[1] != ""
    ensures GetInitials(Some(name)) == [UpperAscii(Split(name, ' ')[0][0]), UpperAscii(Split(name, ' ')[1][0])]
  {
    var p := Split(name, ' ');
    assert FirstChars(p) == [p[0][0]] + FirstChars(p[1..]);
    assert FirstChars(p[1..]) == [p[1][0]] + FirstChars(p[2..]);
  }

  /** A name of spaces only has no word, so its initials are empty rather than "?". */
  lemma SpacesOnlyNameHasNoInitials(name: string)
    requires name != "" && forall k :: 0 <= k < |name| ==> name[k] == ' '
    ensures GetInitials(Some(name)) == ""
  {
    InitialsAreWordInitials(name);
    NoWordInSpaces(name, true);
  }

  lemma {:induction false} NoWordInSpaces(s: string, afterSpace: bool)
    requires forall k :: 0 <= k < |s| ==> s[k] == ' '
    ensures WordInitials(s, afterSpace) == ""
    decreases |s|
  {
    if |s| > 0 {
      NoWordInSpaces(s[1..], true);
    }
  }

  // ---------------------------------------------------------------------------
  // Avatar colour

  /** `getAvatarColor`: the first colour for an absent or empty address;
      otherwise the colour at the address's first UTF-16 code unit modulo 8. */
  function GetAvatarColor(email: Option<string>): (color: string)
    ensures color in AvatarColors
    ensures !Present(email) ==> color == AvatarColors[0]
  {
    if !Present(email) then AvatarColors[0]
    else AvatarColors[FirstCodeUnit(email.value[0]) % |AvatarColors|]
  }

  /** The colours are distinct, so two addresses get the same colour exactly
      when their first code units agree modulo 8. */
  lemma SameColorIffSameResidue(a: string, b: string)
    requires a != "" && b != ""
    ensures GetAvatarColor(Some(a)) == GetAvatarColor(Some(b)) <==>
      FirstCodeUnit(a[0]) % 8 == FirstCodeUnit(b[0]) % 8
  {
    var i, j := FirstCodeUnit(a[0]) % 8, FirstCodeUnit(b[0]) % 8;
    if AvatarColors[i] == AvatarColors[j] {
      assert forall x, y :: 0 <= x < y < 8 ==> AvatarColors[x] != AvatarColors[y];
    }
  }

  /** Only the first character decides the colour. */
  lemma ColorDependsOnFirstCharacter(a: string, b: string)
    requires a != "" && b != "" && a[0] == b[0]
    ensures GetAvatarColor(Some(a)) == GetAvatarColor(Some(b))
  {
  }

  // ---------------------------------------------------------------------------
  // Greeting and avatar

  /** `profile?.full_name || user?.email?.split("@")[0]`: the profile name when it
      is non-empty, otherwise the address up to its first "@", otherwise nothing. */
  function GreetingName(fullName: Option<string>, email: Option<string>): (r: string)
    ensures Present(fullName) ==> r == fullName.value
    ensures !Present(fullName) && email.Some? ==>
      '@' !in r && |r| <= |email.value| && r == email.value[..|r|] && (|r| < |email.value| ==> email.value[|r|] == '@')
    ensures !Present(fullName) && email.None? ==> r == ""
  {
    if Present(fullName) then fullName.value
    else if email.Some? then BeforeFirst(email.value, '@')
    else ""
  }

  /** The name heading the menu: the profile name, or "Kullanıcı". */
  function MenuName(fullName: Option<string>): (r: string)
    ensures Present(fullName) ==> r == fullName.value
    ensures !Present(fullName) ==> r == MenuFallbackName
  {
    if Present(fullName) then fullName.value else MenuFallbackName
  }

  datatype Avatar = Image(url: string) | Initials(text: string, color: string)

  /** The avatar: the profile picture when there is one; otherwise the initials of
      the profile name, or of the address when the name is empty, on the
      address's colour. */
  function AvatarFor(profile: Option<Profile>, email: Option<string>): (a: Avatar)
    ensures a.Image? <==> profile.Some? && Present(profile.value.avatarUrl)
    ensures a.Image? ==> a.url == profile.value.avatarUrl.value
    ensures a.Initials? ==> |a.text| <= 2 && a.color == GetAvatarColor(email) && a.color in AvatarColors
    ensures a.Initials? && profile.Some? && profile.value.fullName != "" ==>
      a.text == GetInitials(Some(profile.value.fullName))
    ensures a.Initials? && (profile.None? || profile.value.fullName == "") ==> a.text == GetInitials(email)
  {
    if profile.Some? && Present(profile.value.avatarUrl) then Image(profile.value.avatarUrl.value)
    else
      var name := if profile.Some? && profile.value.fullName != "" then Some(profile.value.fullName) else email;
      Initials(GetInitials(name), GetAvatarColor(email))
  }
}
