/** The public card page, Frontend/src/pages/Card.tsx: what it derives from a
    fetched profile before drawing it. */
module CardView {
  import opened Wrappers
  import Colors

  datatype ViewLink = ViewLink(
    id: int,
    title: string,
    url: string,
    description: string,
    isFeatured: bool,
    order: int,
    customIcon: Option<string>,
    customColor: Option<string>)

  /** `social_links`; each entry may be missing. */
  datatype SocialLinks = SocialLinks(instagram: Option<string>, twitter: Option<string>, linkedin: Option<string>, email: Option<string>)

  datatype Profile = Profile(
    slug: string,
    title: string,
    subtitle: string,
    bio: string,
    avatarType: string,
    avatarValue: string,
    primaryColor: string,
    secondaryColor: string,
    backgroundStyle: string,
    links: seq<ViewLink>,
    social: Option<SocialLinks>)

  /** JavaScript's `v || fallback` for an optional string. */
  function OrElse(v: Option<string>, fallback: string): (r: string)
    ensures v.Some? && v.value != "" ==> r == v.value
    ensures v.None? || v.value == "" ==> r == fallback
  {
    if v.Some? && v.value != "" then v.value else fallback
  }

  function Gradient(primary: string, secondary: string): string {
    "linear-gradient(to bottom right, " + primary + ", " + secondary + ")"
  }

  /** The avatar background: the primary colour for the "solid" style, the
      two-colour gradient for every other value. */
  function AvatarBackground(p: Profile): (r: string)
    ensures p.backgroundStyle == "solid" ==> r == p.primaryColor
    ensures p.backgroundStyle != "solid" ==> r == Gradient(p.primaryColor, p.secondaryColor)
  {
    if p.backgroundStyle == "solid" then p.primaryColor else Gradient(p.primaryColor, p.secondaryColor)
  }

  /** The avatar's text colour: the contrast colour of the primary colour. */
  function AvatarTextColor(p: Profile): (r: string)
    ensures r == "#000" || r == "#fff"
    ensures p.primaryColor == "" ==> r == "#fff"
  {
    Colors.ContrastColor(p.primaryColor)
  }

  datatype Network = Instagram | Twitter | LinkedIn | EmailNetwork

  /** The icon list in page order, each with its possibly missing URL. */
  function SocialEntries(p: Profile): (r: seq<(Network, Option<string>)>)
    ensures |r| == 4 && r[0].0 == Instagram && r[1].0 == Twitter && r[2].0 == LinkedIn && r[3].0 == EmailNetwork
    ensures p.social.None? ==> forall k :: 0 <= k < 4 ==> r[k].1.None?
  {
    match p.social
    case None => [(Instagram, None), (Twitter, None), (LinkedIn, None), (EmailNetwork, None)]
    case Some(s) => [(Instagram, s.instagram), (Twitter, s.twitter), (LinkedIn, s.linkedin), (EmailNetwork, s.email)]
  }

  /** The entries whose URL is truthy, in their order. */
  function Shown(entries: seq<(Network, Option<string>)>): (r: seq<(Network, string)>)
    ensures |r| <= |entries|
    ensures forall n, u :: (n, u) in r <==> (n, Some(u)) in entries && u != ""
    ensures (forall k :: 0 <= k < |entries| ==> entries[k].1.None?) ==> r == []
  {
    if entries == [] then []
    else
      var (n, u) := entries[0];
      var rest := Shown(entries[1..]);
      var r := (if u.Some? && u.value != "" then [(n, u.value)] else []) + rest;
      assert forall e :: e in entries <==> e == entries[0] || e in entries[1..];
      r
  }

  /** The social icons the page draws: one per present, non-empty URL, in the
      order Instagram, Twitter, LinkedIn, email, linking to that URL. */
  function SocialIcons(p: Profile): (r: seq<(Network, string)>)
    ensures forall n, u :: (n, u) in r <==> (n, Some(u)) in SocialEntries(p) && u != ""
  {
    Shown(SocialEntries(p))
  }

  /** A profile without social links draws no icons, and an empty email
      draws no mail icon. */
  lemma SocialIconsNeedUrls(p: Profile)
    ensures p.social.None? ==> SocialIcons(p) == []
    ensures p.social.Some? && p.social.value.email == Some("") ==> forall u :: (EmailNetwork, u) !in SocialIcons(p)
  {
  }

  /** The fixed dark card every link is drawn on, with its border. */
  const LinkCardBackground := "#1F2937"
  const LinkCardBorder := "1px solid #374151"

  /** How one link is drawn: the card's background and border, the colour of
      its caption, the icon box's background and glyph colour, the icon, the
      caption, the description line when there is one, and the URL a click
      opens in a new tab. */
  datatype LinkCard = LinkCard(
    background: string,
    border: string,
    captionColor: string,
    iconBackground: string,
    iconColor: string,
    icon: string,
    caption: string,
    description: Option<string>,
    url: string)

  /** One link card. The link's own colour plays no part: the card is always
      the dark grey with white text, and the icon box always carries the
      profile's two-colour gradient with a white glyph. */
  function PresentLink(p: Profile, l: ViewLink): (r: LinkCard)
    ensures r.background == LinkCardBackground && r.border == LinkCardBorder && r.captionColor == "white"
    ensures r.iconBackground == Gradient(p.primaryColor, p.secondaryColor) && r.iconColor == "white"
    ensures r.icon == OrElse(l.customIcon, "🔗") && r.icon != ""
    ensures r.caption != "" && (l.title != "" ==> r.caption == l.title)
    ensures r.description.Some? <==> l.description != ""
    ensures r.description.Some? ==> r.description.value == l.description
    ensures r.url == l.url
  {
    LinkCard(
      LinkCardBackground, LinkCardBorder, "white",
      Gradient(p.primaryColor, p.secondaryColor), "white",
      OrElse(l.customIcon, "🔗"),
      if l.title != "" then l.title else "Untitled Link",
      if l.description != "" then Some(l.description) else None,
      l.url)
  }

  /** The list of drawn links: one per link, in the profile's order. */
  function PresentLinks(p: Profile): (r: seq<LinkCard>)
    ensures |r| == |p.links|
    ensures forall k :: 0 <= k < |r| ==> r[k] == PresentLink(p, p.links[k])
  {
    seq(|p.links|, k requires 0 <= k < |p.links| => PresentLink(p, p.links[k]))
  }

  /** A link's custom colour changes nothing on the page, and links that
      differ only in id, order, featuring or colour are drawn alike. */
  lemma CustomColorNotDrawn(p: Profile, l: ViewLink, m: ViewLink)
    requires l.title == m.title && l.url == m.url && l.description == m.description && l.customIcon == m.customIcon
    ensures PresentLink(p, l) == PresentLink(p, m)
  {
  }

  /** Every link's icon box shows the same gradient as an avatar whose style
      is not "solid"; with the "solid" style the avatar is the primary colour
      alone, and the icon boxes still show the gradient. */
  lemma IconBoxMatchesAvatar(p: Profile, l: ViewLink)
    ensures p.backgroundStyle != "solid" ==> PresentLink(p, l).iconBackground == AvatarBackground(p)
    ensures p.backgroundStyle == "solid" ==>
      AvatarBackground(p) == p.primaryColor && PresentLink(p, l).iconBackground == Gradient(p.primaryColor, p.secondaryColor)
  {
  }

  /** A link with an empty title is drawn as "Untitled Link". */
  lemma UntitledFallback(p: Profile, l: ViewLink)
    requires l.title == ""
    ensures PresentLink(p, l).caption == "Untitled Link"
  {
  }
}
