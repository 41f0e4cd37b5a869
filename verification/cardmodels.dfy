/** The card models of the back end, FoundrCard/apps/cards/models.py: the
    default slug, the order links are listed in, and how each record is
    rendered as text. */
module CardModels {
  import opened Wrappers

  // ---------------------------------------------------------------------------
  // Card
  // ---------------------------------------------------------------------------

  /** The fields of a card the rules below read; the slug is nullable. */
  datatype Card = Card(title: string, slug: Option<string>, ownerUsername: string)

  /** `Card.save`: a missing or empty slug is replaced by the slug of the
      owner's username (`slugify` is the framework's, an input here); a set
      one is kept. */
  function Save(c: Card, slugify: string -> string): (r: Card)
    ensures c.slug.Some? && c.slug.value != "" ==> r == c
    ensures c.slug.None? || c.slug.value == "" ==> r == c.(slug := Some(slugify(c.ownerUsername)))
    ensures r.slug.Some? && r.title == c.title && r.ownerUsername == c.ownerUsername
  {
    if c.slug.Some? && c.slug.value != "" then c else c.(slug := Some(slugify(c.ownerUsername)))
  }

  /** Saving again changes nothing, and once a slug is set renaming the
      owner does not change it. */
  lemma SaveIdempotent(c: Card, slugify: string -> string, newName: string)
    ensures Save(Save(c, slugify), slugify) == Save(c, slugify)
    ensures c.slug.Some? && c.slug.value != "" ==>
      Save(c.(ownerUsername := newName), slugify).slug == Save(c, slugify).slug
  {
  }

  /** Python's rendering of an optional string in an f-string. */
  function Shown(s: Option<string>): (r: string)
    ensures s.Some? ==> r == s.value
    ensures s.None? ==> r == "None"
  {
    if s.Some? then s.value else "None"
  }

  /** `Card.__str__`: "title (@slug)". */
  function CardText(c: Card): (r: string)
    ensures |r| == |c.title| + |Shown(c.slug)| + 4
    ensures r[..|c.title|] == c.title && r[|c.title|..|c.title| + 3] == " (@" && r[|r| - 1] == ')'
    ensures r[|c.title| + 3..|r| - 1] == Shown(c.slug)
  {
    c.title + " (@" + Shown(c.slug) + ")"
  }

  /** A card's text determines its title and slug text once the title's
      length is known. */
  lemma CardTextParts(c: Card, d: Card)
    requires |c.title| == |d.title| && CardText(c) == CardText(d)
    ensures c.title == d.title && Shown(c.slug) == Shown(d.slug)
  {
    assert c.title == CardText(c)[..|c.title|];
    assert Shown(c.slug) == CardText(c)[|c.title| + 3..|CardText(c)| - 1];
  }

  // ---------------------------------------------------------------------------
  // Link ordering
  // ---------------------------------------------------------------------------

  /** The fields of a link the listing order and its text read. */
  datatype Link = Link(title: string, isFeatured: bool, order: nat, createdAt: int)

  /** `ordering = ['-is_featured', 'order', 'created_at']`: featured links
      first, then by ascending position, then oldest first. */
  predicate Precedes(a: Link, b: Link) {
    (a.isFeatured && !b.isFeatured)
    || (a.isFeatured == b.isFeatured && (a.order < b.order || (a.order == b.order && a.createdAt <= b.createdAt)))
  }

  /** The order is total, transitive and puts featured links first. */
  lemma PrecedesIsTotalOrder(a: Link, b: Link, c: Link)
    ensures Precedes(a, b) || Precedes(b, a)
    ensures Precedes(a, b) && Precedes(b, c) ==> Precedes(a, c)
    ensures a.isFeatured && !b.isFeatured ==> Precedes(a, b) && !Precedes(b, a)
    ensures Precedes(a, b) && Precedes(b, a) ==> a.isFeatured == b.isFeatured && a.order == b.order && a.createdAt == b.createdAt
  {
  }

  predicate Sorted(s: seq<Link>) {
    forall i :: 0 <= i < |s| - 1 ==> Precedes(s[i], s[i + 1])
  }

  /** Places a link into a listing that is already in order. */
  function Insert(l: Link, s: seq<Link>): (r: seq<Link>)
    requires Sorted(s)
    ensures Sorted(r)
    ensures multiset(r) == multiset(s) + multiset{l}
    ensures |r| == |s| + 1 && (r[0] == l || (s != [] && r[0] == s[0]))
    decreases |s|
  {
    if s == [] then [l]
    else if Precedes(l, s[0]) then [l] + s
    else
      var rest := Insert(l, s[1..]);
      assert s == [s[0]] + s[1..];
      PrecedesIsTotalOrder(l, s[0], l);
      [s[0]] + rest
  }

  /** The links of a card as a query lists them. */
  function Listed(links: seq<Link>): (r: seq<Link>)
    ensures Sorted(r)
    ensures multiset(r) == multiset(links)
    decreases |links|
  {
    if links == [] then []
    else
      assert links == [links[0]] + links[1..];
      Insert(links[0], Listed(links[1..]))
  }

  /** In an ordered listing every earlier link precedes every later one. */
  lemma {:induction false} SortedPrecedes(s: seq<Link>, i: int, j: int)
    requires Sorted(s) && 0 <= i < j < |s|
    ensures Precedes(s[i], s[j])
    decreases j - i
  {
    if j > i + 1 {
      SortedPrecedes(s, i + 1, j);
      PrecedesIsTotalOrder(s[i], s[i + 1], s[j]);
    }
  }

  /** A listed card shows all its featured links before any other, and
      among links of the same kind the lower position first. */
  lemma FeaturedFirst(links: seq<Link>, i: int, j: int)
    requires 0 <= i < j < |Listed(links)|
    ensures Listed(links)[j].isFeatured ==> Listed(links)[i].isFeatured
    ensures Listed(links)[i].isFeatured == Listed(links)[j].isFeatured ==> Listed(links)[i].order <= Listed(links)[j].order
  {
    SortedPrecedes(Listed(links), i, j);
  }

  // ---------------------------------------------------------------------------
  // Text renderings
  // ---------------------------------------------------------------------------

  /** `Link.get_display_title` is the title itself; `Link.__str__` is
      "card title - link title". */
  function LinkText(cardTitle: string, l: Link): (r: string)
    ensures |r| == |cardTitle| + 3 + |l.title|
    ensures r[..|cardTitle|] == cardTitle && r[|cardTitle| + 3..] == l.title
  {
    cardTitle + " - " + l.title
  }

  /** A link's text determines the link title once the card title's length
      is known. */
  lemma LinkTextParts(cardTitle: string, l: Link, m: Link)
    requires LinkText(cardTitle, l) == LinkText(cardTitle, m)
    ensures l.title == m.title
  {
    assert l.title == LinkText(cardTitle, l)[|cardTitle| + 3..];
  }

  /** `Analytics.__str__`: "slug - action", followed by " - link title" when
      a link is attached. */
  function AnalyticsText(slug: Option<string>, action: string, link: Option<Link>): (r: string)
    ensures link.None? ==> |r| == |Shown(slug)| + 3 + |action|
    ensures link.Some? ==> |r| == |Shown(slug)| + 6 + |action| + |link.value.title|
    ensures r[..|Shown(slug)|] == Shown(slug)
  {
    if link.Some? then Shown(slug) + " - " + action + " - " + link.value.title
    else Shown(slug) + " - " + action
  }

  /** The attached link only appends its title. */
  lemma AnalyticsTextWithLink(slug: Option<string>, action: string, l: Link)
    ensures AnalyticsText(slug, action, Some(l)) == AnalyticsText(slug, action, None) + " - " + l.title
  {
  }

  /** `CustomDomain.__str__`: "domain -> slug". */
  function DomainText(domain: string, slug: Option<string>): (r: string)
    ensures |r| == |domain| + 4 + |Shown(slug)|
    ensures r[..|domain|] == domain && r[|domain|..|domain| + 4] == " -> " && r[|domain| + 4..] == Shown(slug)
  {
    domain + " -> " + Shown(slug)
  }

  /** A domain's text determines the domain and the slug text once the
      domain's length is known. */
  lemma DomainTextParts(domain: string, slug: Option<string>, other: string, otherSlug: Option<string>)
    requires |domain| == |other| && DomainText(domain, slug) == DomainText(other, otherSlug)
    ensures domain == other && Shown(slug) == Shown(otherSlug)
  {
    assert domain == DomainText(domain, slug)[..|domain|];
    assert Shown(slug) == DomainText(domain, slug)[|domain| + 4..];
  }
}
