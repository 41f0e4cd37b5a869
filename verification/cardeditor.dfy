/** The card editor of Frontend/src/pages/CreateCard.tsx: the form state, its
    change handlers, and the link list its live preview shows. */
module CardEditor {
  import opened Wrappers
  import Colors

  /** A link id: the preview's startup link uses the number -1, links added in
      the editor get a generated identifier. */
  datatype LinkId = Num(n: int) | Generated(uuid: string)

  datatype CardLink = CardLink(
    id: LinkId,
    title: string,
    url: string,
    description: Option<string>,
    isFeatured: bool,
    customColor: Option<string>,
    customIcon: Option<string>,
    order: int)

  /** The editor state: every text field of the card, and its links. */
  datatype CardData = CardData(
    profilePictureUrl: string,
    slug: string,
    title: string,
    subtitle: string,
    bio: string,
    startupLink: string,
    instagramUrl: string,
    twitterUrl: string,
    linkedinUrl: string,
    email: string,
    avatarType: string,
    avatarValue: string,
    primaryColor: string,
    secondaryColor: string,
    backgroundStyle: string,
    links: seq<CardLink>)

  /** The state the editor opens with. */
  const InitialCard := CardData("", "", "", "", "", "", "", "", "", "", "initials", "N/A", "#6b21a8", "#0284c7", "gradient", [])

  /** The text fields an input can name. */
  datatype Field =
    | ProfilePictureUrl | Slug | Title | Subtitle | Bio | StartupLink
    | InstagramUrl | TwitterUrl | LinkedinUrl | Email
    | AvatarType | AvatarValue | PrimaryColor | SecondaryColor | BackgroundStyle

  function Get(c: CardData, f: Field): string {
    match f
    case ProfilePictureUrl => c.profilePictureUrl
    case Slug => c.slug
    case Title => c.title
    case Subtitle => c.subtitle
    case Bio => c.bio
    case StartupLink => c.startupLink
    case InstagramUrl => c.instagramUrl
    case TwitterUrl => c.twitterUrl
    case LinkedinUrl => c.linkedinUrl
    case Email => c.email
    case AvatarType => c.avatarType
    case AvatarValue => c.avatarValue
    case PrimaryColor => c.primaryColor
    case SecondaryColor => c.secondaryColor
    case BackgroundStyle => c.backgroundStyle
  }

  /** `handleChange`: the named field takes the input's value; every other
      field and the links are kept. */
  function HandleChange(c: CardData, name: Field, value: string): (r: CardData)
    ensures Get(r, name) == value
    ensures forall f :: f != name ==> Get(r, f) == Get(c, f)
    ensures r.links == c.links
  {
    match name
    case ProfilePictureUrl => c.(profilePictureUrl := value)
    case Slug => c.(slug := value)
    case Title => c.(title := value)
    case Subtitle => c.(subtitle := value)
    case Bio => c.(bio := value)
    case StartupLink => c.(startupLink := value)
    case InstagramUrl => c.(instagramUrl := value)
    case TwitterUrl => c.(twitterUrl := value)
    case LinkedinUrl => c.(linkedinUrl := value)
    case Email => c.(email := value)
    case AvatarType => c.(avatarType := value)
    case AvatarValue => c.(avatarValue := value)
    case PrimaryColor => c.(primaryColor := value)
    case SecondaryColor => c.(secondaryColor := value)
    case BackgroundStyle => c.(backgroundStyle := value)
  }

  /** Two states that agree on every text field and on the links are equal. */
  lemma FieldsDetermineCard(a: CardData, b: CardData)
    requires forall f :: Get(a, f) == Get(b, f)
    requires a.links == b.links
    ensures a == b
  {
    assert Get(a, ProfilePictureUrl) == Get(b, ProfilePictureUrl) && Get(a, Slug) == Get(b, Slug);
    assert Get(a, Title) == Get(b, Title) && Get(a, Subtitle) == Get(b, Subtitle) && Get(a, Bio) == Get(b, Bio);
    assert Get(a, StartupLink) == Get(b, StartupLink) && Get(a, InstagramUrl) == Get(b, InstagramUrl);
    assert Get(a, TwitterUrl) == Get(b, TwitterUrl) && Get(a, LinkedinUrl) == Get(b, LinkedinUrl);
    assert Get(a, Email) == Get(b, Email) && Get(a, AvatarType) == Get(b, AvatarType);
    assert Get(a, AvatarValue) == Get(b, AvatarValue) && Get(a, PrimaryColor) == Get(b, PrimaryColor);
    assert Get(a, SecondaryColor) == Get(b, SecondaryColor) && Get(a, BackgroundStyle) == Get(b, BackgroundStyle);
  }

  /** Typing a field's current value back into it changes nothing, and a
      second edit of the same field overrides the first. */
  lemma ChangeIdempotent(c: CardData, name: Field, v: string, w: string)
    ensures HandleChange(c, name, Get(c, name)) == c
    ensures HandleChange(HandleChange(c, name, v), name, w) == HandleChange(c, name, w)
  {
    FieldsDetermineCard(HandleChange(c, name, Get(c, name)), c);
    FieldsDetermineCard(HandleChange(HandleChange(c, name, v), name, w), HandleChange(c, name, w));
  }

  // ---------------------------------------------------------------------------
  // Editing the link list
  // ---------------------------------------------------------------------------

  /** The link fields the editor's inputs change. */
  datatype LinkField = LinkTitle | LinkUrl | LinkColor

  function SetLinkField(l: CardLink, field: LinkField, value: string): CardLink {
    match field
    case LinkTitle => l.(title := value)
    case LinkUrl => l.(url := value)
    case LinkColor => l.(customColor := Some(value))
  }

  /** `handleLinkChange(index, field, value)`: the field of the link at `index`
      takes the value and nothing else changes; an index with no link makes
      `newLinks[index][field]` throw, modelled as `Failure`. */
  function HandleLinkChange(c: CardData, index: int, field: LinkField, value: string): (r: Result<CardData, ()>)
    ensures r.Success? <==> 0 <= index < |c.links|
    ensures r.Success? ==>
      && |r.value.links| == |c.links|
      && (forall k :: 0 <= k < |c.links| && k != index ==> r.value.links[k] == c.links[k])
      && r.value.links[index] == SetLinkField(c.links[index], field, value)
      && (forall f :: Get(r.value, f) == Get(c, f))
  {
    if 0 <= index < |c.links| then
      Success(c.(links := c.links[index := SetLinkField(c.links[index], field, value)]))
    else Failure(())
  }

  /** A new link: empty title and url, not featured, ordered after the links
      that were there when it was added. */
  function NewLink(id: string, order: int): CardLink {
    CardLink(Generated(id), "", "", None, false, None, None, order)
  }

  /** `addLink`, with the generated identifier as an input. */
  function AddLink(c: CardData, id: string): (r: CardData)
    ensures |r.links| == |c.links| + 1 && r.links[..|c.links|] == c.links
    ensures var l := r.links[|c.links|];
      l.id == Generated(id) && l.title == "" && l.url == "" && !l.isFeatured && l.order == |c.links|
    ensures forall f :: Get(r, f) == Get(c, f)
  {
    c.(links := c.links + [NewLink(id, |c.links|)])
  }

  /** `links.filter(link => link.id !== id)`. */
  function RemoveId(links: seq<CardLink>, id: LinkId): (r: seq<CardLink>)
    ensures |r| <= |links|
  {
    if links == [] then []
    else (if links[0].id == id then [] else [links[0]]) + RemoveId(links[1..], id)
  }

  /** The filter keeps exactly the links with another id. */
  lemma {:induction false} RemoveIdMembers(links: seq<CardLink>, id: LinkId)
    ensures forall l :: l in RemoveId(links, id) <==> l in links && l.id != id
  {
    if links != [] {
      RemoveIdMembers(links[1..], id);
      assert links == [links[0]] + links[1..];
    }
  }

  /** `removeLink(id)`: every link with that id goes, the rest stay. */
  function RemoveLink(c: CardData, id: LinkId): (r: CardData)
    ensures forall l :: l in r.links <==> l in c.links && l.id != id
    ensures forall f :: Get(r, f) == Get(c, f)
  {
    RemoveIdMembers(c.links, id);
    c.(links := RemoveId(c.links, id))
  }

  /** Filtering works piecewise, so the links that remain keep their
      relative order. */
  lemma {:induction false} RemoveIdAppend(a: seq<CardLink>, b: seq<CardLink>, id: LinkId)
    ensures RemoveId(a + b, id) == RemoveId(a, id) + RemoveId(b, id)
  {
    if a == [] {
      assert a + b == b;
    } else {
      var head := if a[0].id == id then [] else [a[0]];
      assert (a + b)[0] == a[0] && (a + b)[1..] == a[1..] + b;
      RemoveIdAppend(a[1..], b, id);
      calc {
        RemoveId(a + b, id);
        head + RemoveId(a[1..] + b, id);
        head + (RemoveId(a[1..], id) + RemoveId(b, id));
        (head + RemoveId(a[1..], id)) + RemoveId(b, id);
      }
    }
  }

  /** Removing an id no link has changes nothing. */
  lemma {:induction false} RemoveAbsentId(links: seq<CardLink>, id: LinkId)
    requires forall k :: 0 <= k < |links| ==> links[k].id != id
    ensures RemoveId(links, id) == links
  {
    if links != [] {
      RemoveAbsentId(links[1..], id);
    }
  }

  /** Removing a freshly added link undoes `addLink`. */
  lemma RemoveUndoesAdd(c: CardData, id: string)
    requires forall k :: 0 <= k < |c.links| ==> c.links[k].id != Generated(id)
    ensures RemoveLink(AddLink(c, id), Generated(id)) == c
  {
    var l := NewLink(id, |c.links|);
    RemoveIdAppend(c.links, [l], Generated(id));
    RemoveAbsentId(c.links, Generated(id));
    assert RemoveId([l], Generated(id)) == [] by {
      assert [l][1..] == [];
    }
  }

  // ---------------------------------------------------------------------------
  // The preview's link list
  // ---------------------------------------------------------------------------

  /** The startup entry's icon as the source spells it: the UTF-8 bytes of a
      lightning emoji read as Windows-1252, three characters. The preview
      compares icons against this same text. */
  const StartupIcon := "\U{00E2}\U{0161}\U{00A1}"

  /** What the preview draws in a link's icon box: the lightning glyph for the
      startup icon, an image for any other non-empty icon, the default glyph
      otherwise. */
  datatype IconView = Lightning | Image(src: string) | DefaultGlyph

  function PreviewIcon(l: CardLink): (v: IconView)
    ensures v == Lightning <==> l.customIcon == Some(StartupIcon)
    ensures v.Image? <==> l.customIcon.Some? && l.customIcon.value != "" && l.customIcon.value != StartupIcon
    ensures v.Image? ==> Some(v.src) == l.customIcon
  {
    if l.customIcon == Some(StartupIcon) then Lightning
    else if l.customIcon.Some? && l.customIcon.value != "" then Image(l.customIcon.value)
    else DefaultGlyph
  }

  /** The entry the preview shows for a non-empty startup link: featured,
      ordered ahead of every link the editor adds, pointing at the startup
      URL, and drawn with the lightning glyph rather than as an image. */
  function StartupEntry(url: string): (r: CardLink)
    ensures r.url == url && r.order == -1 && r.isFeatured && r.id == Num(-1)
    ensures PreviewIcon(r) == Lightning
  {
    CardLink(Num(-1), "My Latest Startup", url, Some("AI-powered productivity platform"), true, Some("#e0e7ff"), Some(StartupIcon), -1)
  }

  predicate SortedByOrder(s: seq<CardLink>) {
    forall i, j :: 0 <= i < j < |s| ==> s[i].order <= s[j].order
  }

  /** The links of `s` whose order is `o`, in their order in `s`. */
  function WithOrder(s: seq<CardLink>, o: int): seq<CardLink> {
    if s == [] then [] else (if s[0].order == o then [s[0]] else []) + WithOrder(s[1..], o)
  }

  /** Inserts `x` into a sorted list after every link ordered at or before it. */
  function Insert(t: seq<CardLink>, x: CardLink): seq<CardLink> {
    if t == [] then [x]
    else if x.order < t[0].order then [x] + t
    else [t[0]] + Insert(t[1..], x)
  }

  /** `s.sort((a, b) => a.order - b.order)`: a stable sort by `order`, written
      as an insertion sort. */
  function SortByOrder(s: seq<CardLink>): (r: seq<CardLink>)
    ensures SortedByOrder(r)
    ensures multiset(r) == multiset(s)
  {
    if s == [] then []
    else
      var n := |s| - 1;
      var t := SortByOrder(s[..n]);
      InsertSorted(t, s[n]);
      assert multiset(Insert(t, s[n])) == multiset(s) by {
        InsertMultiset(t, s[n]);
        assert s == s[..n] + [s[n]];
      }
      Insert(t, s[n])
  }

  /** The sort is stable: the links sharing an order keep their relative
      order. */
  lemma {:induction false} SortByOrderStable(s: seq<CardLink>, o: int)
    ensures WithOrder(SortByOrder(s), o) == WithOrder(s, o)
    decreases |s|
  {
    if s != [] {
      var n := |s| - 1;
      var t := SortByOrder(s[..n]);
      SortByOrderLast(s);
      SortByOrderStable(s[..n], o);
      InsertWithOrder(t, s[n], o);
      WithOrderLast(s, o);
    }
  }

  lemma SortByOrderLast(s: seq<CardLink>)
    requires s != []
    ensures SortByOrder(s) == Insert(SortByOrder(s[..|s| - 1]), s[|s| - 1])
  {
  }

  lemma WithOrderLast(s: seq<CardLink>, o: int)
    requires s != []
    ensures WithOrder(s, o) == WithOrder(s[..|s| - 1], o) + WithOrder([s[|s| - 1]], o)
  {
    WithOrderAppend(s[..|s| - 1], [s[|s| - 1]], o);
    assert s[..|s| - 1] + [s[|s| - 1]] == s;
  }

  /** Inserting keeps a lower bound on the orders. */
  lemma {:induction false} InsertBound(t: seq<CardLink>, x: CardLink, b: int)
    requires forall k :: 0 <= k < |t| ==> t[k].order >= b
    requires x.order >= b
    ensures |Insert(t, x)| == |t| + 1
    ensures forall k :: 0 <= k < |Insert(t, x)| ==> Insert(t, x)[k].order >= b
  {
    if t != [] && x.order >= t[0].order {
      InsertBound(t[1..], x, b);
    }
  }

  lemma ConsSorted(h: CardLink, s: seq<CardLink>)
    requires SortedByOrder(s)
    requires forall k :: 0 <= k < |s| ==> h.order <= s[k].order
    ensures SortedByOrder([h] + s)
  {
    forall i, j | 0 <= i < j < |[h] + s|
      ensures ([h] + s)[i].order <= ([h] + s)[j].order
    {
      assert ([h] + s)[j] == s[j - 1];
      if i > 0 {
        assert ([h] + s)[i] == s[i - 1];
      }
    }
  }

  lemma {:induction false} InsertSorted(t: seq<CardLink>, x: CardLink)
    requires SortedByOrder(t)
    ensures SortedByOrder(Insert(t, x))
  {
    if t != [] {
      if x.order < t[0].order {
        ConsSorted(x, t);
      } else {
        assert SortedByOrder(t[1..]);
        InsertSorted(t[1..], x);
        InsertBound(t[1..], x, t[0].order);
        ConsSorted(t[0], Insert(t[1..], x));
      }
    }
  }

  lemma {:induction false} InsertMultiset(t: seq<CardLink>, x: CardLink)
    ensures multiset(Insert(t, x)) == multiset(t) + multiset{x}
  {
    if t != [] && x.order >= t[0].order {
      InsertMultiset(t[1..], x);
      assert t == [t[0]] + t[1..];
    }
  }

  lemma {:induction false} InsertWithOrder(t: seq<CardLink>, x: CardLink, o: int)
    requires SortedByOrder(t)
    ensures WithOrder(Insert(t, x), o) == WithOrder(t, o) + WithOrder([x], o)
  {
    assert [x][1..] == [];
    var own := if x.order == o then [x] else [];
    assert WithOrder([x], o) == own + WithOrder([], o);
    if t == [] {
    } else if x.order < t[0].order {
      assert ([x] + t)[1..] == t;
      assert WithOrder([x] + t, o) == own + WithOrder(t, o);
      if x.order == o {
        NoneWithOrder(t, o);
      }
    } else {
      var head := if t[0].order == o then [t[0]] else [];
      assert SortedByOrder(t[1..]);
      InsertWithOrder(t[1..], x, o);
      assert ([t[0]] + Insert(t[1..], x))[1..] == Insert(t[1..], x);
      assert WithOrder(Insert(t, x), o) == head + WithOrder(Insert(t[1..], x), o);
      assert WithOrder(t, o) == head + WithOrder(t[1..], o);
    }
  }

  lemma {:induction false} NoneWithOrder(t: seq<CardLink>, o: int)
    requires SortedByOrder(t) && t != [] && o < t[0].order
    ensures WithOrder(t, o) == []
  {
    if |t| > 1 {
      NoneWithOrder(t[1..], o);
    }
  }

  lemma {:induction false} WithOrderAppend(a: seq<CardLink>, b: seq<CardLink>, o: int)
    ensures WithOrder(a + b, o) == WithOrder(a, o) + WithOrder(b, o)
  {
    if a == [] {
      assert a + b == b;
    } else {
      var head := if a[0].order == o then [a[0]] else [];
      assert (a + b)[0] == a[0] && (a + b)[1..] == a[1..] + b;
      WithOrderAppend(a[1..], b, o);
      assert WithOrder(a + b, o) == head + WithOrder(a[1..] + b, o);
      assert WithOrder(a, o) == head + WithOrder(a[1..], o);
    }
  }

  /** `allLinks`: the startup entry, when `startup_link` is non-empty, merged
      with the card's links and sorted by order. */
  function AllLinks(c: CardData): (r: seq<CardLink>)
    ensures SortedByOrder(r)
    ensures multiset(r) == multiset(if c.startupLink != "" then [StartupEntry(c.startupLink)] + c.links else c.links)
  {
    SortByOrder(if c.startupLink != "" then [StartupEntry(c.startupLink)] + c.links else c.links)
  }

  /** Links with the same order keep the order they had in the card. */
  lemma AllLinksStable(c: CardData, o: int)
    requires c.startupLink == "" || o != -1
    ensures WithOrder(AllLinks(c), o) == WithOrder(c.links, o)
  {
    SortByOrderStable(if c.startupLink != "" then [StartupEntry(c.startupLink)] + c.links else c.links, o);
    if c.startupLink != "" {
      WithOrderAppend([StartupEntry(c.startupLink)], c.links, o);
    }
  }

  /** The startup entry is shown exactly when `startup_link` is non-empty; when
      every card link has a non-negative order (as `addLink` assigns), it is
      shown first and the card's links follow in their sorted order. */
  lemma StartupLinkFirst(c: CardData)
    requires forall k :: 0 <= k < |c.links| ==> c.links[k].order >= 0
    ensures StartupEntry(c.startupLink) in AllLinks(c) <==> c.startupLink != ""
    ensures c.startupLink != "" ==> AllLinks(c)[0] == StartupEntry(c.startupLink)
  {
    var s := StartupEntry(c.startupLink);
    var r := AllLinks(c);
    if c.startupLink == "" {
      assert forall k :: 0 <= k < |c.links| ==> c.links[k] != s;
      assert s !in multiset(r);
    } else {
      var m := [s] + c.links;
      assert s in multiset(r) by { assert m[0] == s; }
      var k :| 0 <= k < |r| && r[k] == s;
      assert r[0] in multiset(m);
      assert r[0].order <= -1;
      assert forall j :: 1 <= j < |m| ==> m[j] == c.links[j - 1];
      var i :| 0 <= i < |m| && m[i] == r[0];
    }
  }

  // ---------------------------------------------------------------------------
  // Preview details
  // ---------------------------------------------------------------------------

  /** The four social icons of the preview, in order. */
  datatype Social = Instagram | Twitter | Linkedin | Mail

  /** The URL behind each icon; the mail icon links to `mailto:` plus the
      email, or to nothing when the email is empty. */
  function SocialUrl(c: CardData, s: Social): (r: Option<string>)
    ensures s == Mail ==> (r.Some? <==> c.email != "")
    ensures s == Mail && r.Some? ==> r.value == "mailto:" + c.email
    ensures s != Mail ==> r.Some?
  {
    match s
    case Instagram => Some(c.instagramUrl)
    case Twitter => Some(c.twitterUrl)
    case Linkedin => Some(c.linkedinUrl)
    case Mail => if c.email != "" then Some("mailto:" + c.email) else None
  }

  /** The icons the preview renders: those whose URL is present and non-empty. */
  function RenderedSocials(c: CardData): (r: seq<(Social, string)>)
    ensures forall s :: (exists k :: 0 <= k < |r| && r[k].0 == s) <==> SocialUrl(c, s).Some? && SocialUrl(c, s).value != ""
    ensures forall k :: 0 <= k < |r| ==> SocialUrl(c, r[k].0) == Some(r[k].1)
  {
    var all := [Instagram, Twitter, Linkedin, Mail];
    assert forall s :: s in all by {
      forall s
        ensures s in all
      {
        if s.Instagram? {
          assert all[0] == s;
        } else if s.Twitter? {
          assert all[1] == s;
        } else if s.Linkedin? {
          assert all[2] == s;
        } else {
          assert all[3] == s;
        }
      }
    }
    assert forall s :: ((exists k :: 0 <= k < |Truthy(c, all)| && Truthy(c, all)[k].0 == s)
      <==> s in all && SocialUrl(c, s).Some? && SocialUrl(c, s).value != "") by {
      forall s
        ensures (exists k :: 0 <= k < |Truthy(c, all)| && Truthy(c, all)[k].0 == s)
          <==> s in all && SocialUrl(c, s).Some? && SocialUrl(c, s).value != ""
      {
        TruthyMembers(c, all, s);
      }
    }
    Truthy(c, all)
  }

  /** The icons of `icons` with a present, non-empty URL, paired with it. */
  function Truthy(c: CardData, icons: seq<Social>): (r: seq<(Social, string)>)
    ensures forall k :: 0 <= k < |r| ==> SocialUrl(c, r[k].0) == Some(r[k].1)
  {
    if icons == [] then []
    else
      var u := SocialUrl(c, icons[0]);
      (if u.Some? && u.value != "" then [(icons[0], u.value)] else []) + Truthy(c, icons[1..])
  }

  /** Every kept icon was listed and has a truthy URL. */
  lemma {:induction false} TruthyKept(c: CardData, icons: seq<Social>, k: int)
    requires 0 <= k < |Truthy(c, icons)|
    ensures Truthy(c, icons)[k].0 in icons
    ensures SocialUrl(c, Truthy(c, icons)[k].0).Some? && SocialUrl(c, Truthy(c, icons)[k].0).value != ""
  {
    var u := SocialUrl(c, icons[0]);
    var head := if u.Some? && u.value != "" then [(icons[0], u.value)] else [];
    var rest := Truthy(c, icons[1..]);
    assert Truthy(c, icons) == head + rest;
    if k < |head| {
      assert Truthy(c, icons)[k] == (icons[0], u.value);
    } else {
      TruthyKept(c, icons[1..], k - |head|);
      assert Truthy(c, icons)[k] == rest[k - |head|];
      assert rest[k - |head|].0 in icons[1..];
    }
  }

  /** Every listed icon with a truthy URL is kept; `k` is its position. */
  lemma {:induction false} TruthyFound(c: CardData, icons: seq<Social>, s: Social) returns (k: nat)
    requires s in icons && SocialUrl(c, s).Some? && SocialUrl(c, s).value != ""
    ensures k < |Truthy(c, icons)| && Truthy(c, icons)[k].0 == s
  {
    var u := SocialUrl(c, icons[0]);
    var head := if u.Some? && u.value != "" then [(icons[0], u.value)] else [];
    var rest := Truthy(c, icons[1..]);
    assert Truthy(c, icons) == head + rest;
    if s == icons[0] {
      k := 0;
    } else {
      assert icons == [icons[0]] + icons[1..];
      var j := TruthyFound(c, icons[1..], s);
      k := j + |head|;
      assert Truthy(c, icons)[k] == rest[j];
    }
  }

  /** An icon is kept exactly when it is listed and its URL is truthy. */
  lemma TruthyMembers(c: CardData, icons: seq<Social>, s: Social)
    ensures (exists k :: 0 <= k < |Truthy(c, icons)| && Truthy(c, icons)[k].0 == s)
      <==> s in icons && SocialUrl(c, s).Some? && SocialUrl(c, s).value != ""
  {
    if exists k :: 0 <= k < |Truthy(c, icons)| && Truthy(c, icons)[k].0 == s {
      var k :| 0 <= k < |Truthy(c, icons)| && Truthy(c, icons)[k].0 == s;
      TruthyKept(c, icons, k);
    }
    if s in icons && SocialUrl(c, s).Some? && SocialUrl(c, s).value != "" {
      var k := TruthyFound(c, icons, s);
    }
  }

  /** A link's preview background: its custom colour, or light grey. */
  function LinkBackground(l: CardLink): (r: string)
    ensures l.customColor.Some? && l.customColor.value != "" ==> r == l.customColor.value
    ensures !(l.customColor.Some? && l.customColor.value != "") ==> r == "#f3f4f6"
  {
    if l.customColor.Some? && l.customColor.value != "" then l.customColor.value else "#f3f4f6"
  }

  /** A link's text colour in the preview. */
  function LinkTextColor(l: CardLink): (r: string)
    ensures r == "#ffffff" || r == "#2d3748"
    ensures r == "#ffffff" <==> Colors.IsDarkColor(LinkBackground(l))
  {
    Colors.ContrastingTextColor(LinkBackground(l))
  }

  /** The preview's default link colour is light. */
  lemma GreyIsLight()
    ensures !Colors.IsDarkColor("#f3f4f6")
  {
    var grey := "#f3f4f6";
    assert Colors.AllHex(grey[1..]);
    Colors.DarkSixDigits(grey);
    assert Colors.HexPair('f', '3') == 243 && Colors.HexPair('f', '4') == 244 && Colors.HexPair('f', '6') == 246;
  }

  /** The startup entry's colour is light. */
  lemma VioletIsLight()
    ensures !Colors.IsDarkColor("#e0e7ff")
  {
    var violet := "#e0e7ff";
    assert Colors.AllHex(violet[1..]);
    Colors.DarkSixDigits(violet);
    assert Colors.HexPair('e', '0') == 224 && Colors.HexPair('e', '7') == 231 && Colors.HexPair('f', 'f') == 255;
  }

  /** Links without a colour, the startup entry included, are drawn light
      with slate text. */
  lemma DefaultLinksGetDarkText(l: CardLink, url: string)
    ensures !(l.customColor.Some? && l.customColor.value != "") ==> LinkTextColor(l) == "#2d3748"
    ensures LinkTextColor(StartupEntry(url)) == "#2d3748"
  {
    GreyIsLight();
    VioletIsLight();
  }
}
