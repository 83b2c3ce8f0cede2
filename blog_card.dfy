/**
 * The values a blog card derives from its props before rendering: the cover image with its
 * fallback, the first three tags and a "+N more" badge for the rest, the optional
 * "N min read" suffix, and the three links to the post.
 */
module BlogCard {
  import opened Wrappers
  import opened Seqs
  import opened Numbers

  const PlaceholderImage: string := "/placeholder.svg"
  const MaxVisibleTags: nat := 3
  const BlogPrefix: string := "/blog/"

  /**
   * The props a card reads. `None` stands for an absent (`undefined`) prop, and for
   * `coverImage` also `null`. A `null` `tags` would miss the `= []` default and make
   * `tags.slice` throw; the prop's type excludes it.
   */
  datatype CardProps = CardProps(
    slug: string,
    title: string,
    date: string,
    excerpt: string,
    coverImage: Option<string>,
    tags: Option<seq<string>>,
    readingTimeMinutes: Option<real>)

  /** The tag row: the tags shown, and the count on the "+N more" badge when there is one. */
  datatype TagRow = TagRow(shown: seq<string>, badge: Option<nat>)

  /** What the card shows. */
  datatype CardView = CardView(
    imageSrc: string,
    coverHref: string,
    titleHref: string,
    readMoreHref: string,
    readingTime: Option<real>,
    tagRow: Option<TagRow>)

  /** `coverImage || "/placeholder.svg"`: the empty string, `null` and `undefined` fall back. */
  function ImageSrc(coverImage: Option<string>): (r: string)
    ensures r != ""
    ensures coverImage.Some? && coverImage.value != "" ==> r == coverImage.value
    ensures coverImage.None? || coverImage.value == "" ==> r == PlaceholderImage
  {
    if coverImage.Some? && coverImage.value != "" then coverImage.value else PlaceholderImage
  }

  /** `tags.slice(0, 3)`. */
  function VisibleTags(tags: seq<string>): (r: seq<string>)
    ensures |r| == Min(MaxVisibleTags, |tags|)
    ensures r == tags[..|r|]
  {
    Slice(tags, 0, MaxVisibleTags)
  }

  /** `Math.max(0, tags.length - visibleTags.length)`. */
  function HiddenTagsCount(tags: seq<string>): (n: nat)
  {
    Max(0, |tags| - |VisibleTags(tags)|)
  }

  /** Round trip: the shown tags followed by the hidden ones are the tag list, and the badge counts exactly the hidden ones. */
  lemma TagsSplit(tags: seq<string>)
    ensures VisibleTags(tags) + tags[|VisibleTags(tags)|..] == tags
    ensures HiddenTagsCount(tags) == |tags[|VisibleTags(tags)|..]|
    ensures |VisibleTags(tags)| + HiddenTagsCount(tags) == |tags|
  {
    var v := VisibleTags(tags);
    assert v + tags[|v|..] == tags[..|v|] + tags[|v|..];
  }

  /** Tags are hidden exactly when there are more than three, and then all but three are. */
  lemma HiddenIffMoreThanThree(tags: seq<string>)
    ensures HiddenTagsCount(tags) > 0 <==> |tags| > MaxVisibleTags
    ensures |tags| > MaxVisibleTags ==> HiddenTagsCount(tags) == |tags| - MaxVisibleTags
  {
  }

  /** The post's page, `/blog/${slug}`. */
  function PostHref(slug: string): (r: string)
    ensures |r| == |BlogPrefix| + |slug|
    ensures r[..|BlogPrefix|] == BlogPrefix
  {
    BlogPrefix + slug
  }

  /** Round trip: the slug is what follows the `/blog/` prefix, so different posts get different links. */
  lemma PostHrefRoundTrip(slug: string, other: string)
    ensures PostHref(slug)[|BlogPrefix|..] == slug
    ensures PostHref(slug) == PostHref(other) ==> slug == other
  {
    assert PostHref(slug)[|BlogPrefix|..] == slug;
    if PostHref(slug) == PostHref(other) {
      assert PostHref(other)[|BlogPrefix|..] == other;
    }
  }

  /** `typeof readingTimeMinutes === "number" && readingTimeMinutes > 0`. */
  function ReadingTimeShown(readingTimeMinutes: Option<real>): (r: Option<real>)
    ensures r.Some? <==> readingTimeMinutes.Some? && readingTimeMinutes.value > 0.0
    ensures r.Some? ==> r == readingTimeMinutes
  {
    if readingTimeMinutes.Some? && readingTimeMinutes.value > 0.0 then readingTimeMinutes else None
  }

  /** The tag row, rendered only when some tag is visible; the badge only when some tag is hidden. */
  function TagRowOf(tags: seq<string>): (r: Option<TagRow>)
    ensures r.Some? <==> tags != []
    ensures r.Some? ==> r.value.shown == VisibleTags(tags)
    ensures r.Some? ==> (r.value.badge.Some? <==> |tags| > MaxVisibleTags)
    ensures r.Some? && r.value.badge.Some? ==> r.value.badge.value == |tags| - MaxVisibleTags
  {
    var visible := VisibleTags(tags);
    var hidden := HiddenTagsCount(tags);
    if |visible| > 0 then Some(TagRow(visible, if hidden > 0 then Some(hidden) else None)) else None
  }

  /** The card for `props`; an absent `tags` prop defaults to no tags. */
  function Card(props: CardProps): (v: CardView)
    ensures v.coverHref == v.titleHref == v.readMoreHref == BlogPrefix + props.slug
    ensures props.coverImage.Some? && props.coverImage.value != "" ==> v.imageSrc == props.coverImage.value
    ensures props.coverImage.None? || props.coverImage.value == "" ==> v.imageSrc == PlaceholderImage
    ensures v.readingTime.Some? <==> props.readingTimeMinutes.Some? && props.readingTimeMinutes.value > 0.0
    ensures v.readingTime.Some? ==> v.readingTime == props.readingTimeMinutes
    ensures var tags := props.tags.GetOr([]);
            && (v.tagRow.Some? <==> tags != [])
            && (v.tagRow.Some? ==>
                  && v.tagRow.value.shown == tags[..Min(MaxVisibleTags, |tags|)]
                  && (v.tagRow.value.badge.Some? <==> |tags| > MaxVisibleTags)
                  && (v.tagRow.value.badge.Some? ==> v.tagRow.value.badge.value == |tags| - MaxVisibleTags))
  {
    var tags := props.tags.GetOr([]);
    var href := PostHref(props.slug);
    CardView(ImageSrc(props.coverImage), href, href, href,
             ReadingTimeShown(props.readingTimeMinutes), TagRowOf(tags))
  }
}
