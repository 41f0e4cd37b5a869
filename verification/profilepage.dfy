/** The profile page, Frontend/src/pages/auth/Profile.tsx: the displayed name,
    the avatar letter, and how the name field is saved back into the user. */
module ProfilePage {
  import opened Wrappers
  import opened Text

  datatype UserProfile = UserProfile(
    firstName: string,
    lastName: string,
    username: string,
    email: string,
    profilePictureUrl: string,
    dateJoined: string)

  /** The page state: the loaded user, if any, and the three edit fields. */
  datatype Page = Page(user: Option<UserProfile>, editName: string, editUsername: string, editEmail: string)

  const Empty := Page(None, "", "", "")

  /** The page once the profile has been fetched: the name field shows the
      first and last name separated by a space. */
  function Loaded(u: UserProfile): (p: Page)
    ensures p.user == Some(u) && p.editUsername == u.username && p.editEmail == u.email
    ensures |p.editName| == |u.firstName| + 1 + |u.lastName|
    ensures p.editName[..|u.firstName|] == u.firstName && p.editName[|u.firstName|] == ' '
    ensures p.editName[|u.firstName| + 1..] == u.lastName
  {
    Page(Some(u), u.firstName + " " + u.lastName, u.username, u.email)
  }

  /** `fullName`: first and last name joined by a space and trimmed, or the
      username when that leaves nothing. */
  function FullName(u: UserProfile): (r: string)
    ensures JsTrim(u.firstName + " " + u.lastName) != "" ==> r == JsTrim(u.firstName + " " + u.lastName)
    ensures JsTrim(u.firstName + " " + u.lastName) == "" ==> r == u.username
    ensures r == "" ==> u.username == ""
  {
    var joined := JsTrim(u.firstName + " " + u.lastName);
    if joined != "" then joined else u.username
  }

  /** The avatar fallback, `fullName.charAt(0).toUpperCase()`: the first
      UTF-16 code unit of the full name, upper-cased (empty when the full name
      is). For a name starting outside the Basic Multilingual Plane that unit
      is the first character's high half, which no case mapping changes; it
      is written, as `CodeUnits` writes it, as that character. */
  function AvatarInitial(u: UserProfile): (r: string)
    ensures |r| <= 1
    ensures r == "" <==> FullName(u) == ""
    ensures r != "" && InBmp(FullName(u)[0]) ==> r == [UpperChar(FullName(u)[0])]
    ensures r != "" && !InBmp(FullName(u)[0]) ==> r == [FullName(u)[0]]
  {
    var n := FullName(u);
    if n == "" then ""
    else
      CodeUnitsCons(n[0], n[1..]);
      assert [n[0]] + n[1..] == n;
      [UpperChar(CodeUnits(n)[0])]
  }

  /** `editName.split(" ")`: the first two tokens, each "" when absent; any
      later tokens are dropped. */
  function SplitName(editName: string): (r: (string, string))
    ensures ' ' !in r.0 && ' ' !in r.1
    ensures |r.0| <= |editName| && editName[..|r.0|] == r.0
    ensures ' ' !in editName ==> r == (editName, "")
  {
    var parts := Split(editName, ' ');
    assert Join(parts, ' ') == editName;
    assert |parts| > 1 ==> Join(parts, ' ') == parts[0] + [' '] + Join(parts[1..], ' ');
    (parts[0], if |parts| > 1 then parts[1] else "")
  }

  /** `handleSave`: with a loaded user, the first two name tokens become the
      first and last name and the username and email fields are copied; the
      picture and join date stay; without a user nothing changes. */
  function HandleSave(p: Page): (r: Page)
    ensures p.user.None? ==> r == p
    ensures r.editName == p.editName && r.editUsername == p.editUsername && r.editEmail == p.editEmail
    ensures p.user.Some? ==> (r.user.Some?
      && (r.user.value.firstName, r.user.value.lastName) == SplitName(p.editName)
      && r.user.value.username == p.editUsername && r.user.value.email == p.editEmail
      && r.user.value.profilePictureUrl == p.user.value.profilePictureUrl
      && r.user.value.dateJoined == p.user.value.dateJoined)
  {
    match p.user
    case None => p
    case Some(u) =>
      var (first, last) := SplitName(p.editName);
      p.(user := Some(u.(firstName := first, lastName := last, username := p.editUsername, email := p.editEmail)))
  }

  /** The name is split at every space, and only the first two pieces are kept. */
  lemma SplitNameOfPieces(parts: seq<string>)
    requires |parts| >= 1 && forall k :: 0 <= k < |parts| ==> ' ' !in parts[k]
    ensures SplitName(Join(parts, ' ')) == (parts[0], if |parts| > 1 then parts[1] else "")
  {
    SplitJoin(parts, ' ');
  }

  /** Saving without editing gives the loaded user back, provided neither
      name holds a space. */
  lemma LoadThenSave(u: UserProfile)
    requires ' ' !in u.firstName && ' ' !in u.lastName
    ensures HandleSave(Loaded(u)).user == Some(u)
  {
    SplitNameOfPieces([u.firstName, u.lastName]);
    assert Join([u.firstName, u.lastName], ' ') == u.firstName + " " + u.lastName;
  }

  /** A three-word name loses its last word on save. */
  lemma ThirdWordDropped(u: UserProfile)
    ensures var p := HandleSave(Page(Some(u), "Ada King Lovelace", u.username, u.email));
      p.user.value.firstName == "Ada" && p.user.value.lastName == "King"
  {
    SplitNameOfPieces(["Ada", "King", "Lovelace"]);
    assert Join(["Ada", "King", "Lovelace"], ' ') == "Ada King Lovelace";
  }

  /** With names free of white space, the saved user's full name is the
      name field as typed. */
  lemma SavedFullName(u: UserProfile, first: string, last: string)
    requires first != "" && last != ""
    requires forall k :: 0 <= k < |first| ==> !IsJsSpace(first[k])
    requires forall k :: 0 <= k < |last| ==> !IsJsSpace(last[k])
    ensures var p := HandleSave(Page(Some(u), first + " " + last, u.username, u.email));
      FullName(p.user.value) == first + " " + last
  {
    SplitNameOfPieces([first, last]);
    assert Join([first, last], ' ') == first + " " + last;
    var s := first + " " + last;
    assert s[0] == first[0] && s[|s| - 1] == last[|last| - 1];
    StripKeeps(s, IsJsSpace);
  }
}
