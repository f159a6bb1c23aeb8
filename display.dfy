/**
 * The text shown on an article card: the publication date up to its
 * offset, and the title and description cut to a fixed length.
 */
module Display {
  import opened Wrappers
  import opened JsBuiltins
  import opened Articles

  /** The separator between the date and its time-zone offset. */
  const OffsetSeparator: string := " +"

  /** `title.slice(0, 55)`. */
  const TitleLength: nat := 55

  /** `description.slice(0, 100)`. */
  const DescriptionLength: nat := 100

  /** The literal `...` the card prints after a cut title or description. */
  const Ellipsis: string := "..."

  /** `formatDate`: `dateString.split(' +')[0]`. */
  function FormatDate(date: string): (r: string)
    ensures r <= date
    ensures forall j: nat :: j < |r| ==> !OccursAt(date, OffsetSeparator, j)
    ensures Contains(date, OffsetSeparator) ==> OccursAt(date, OffsetSeparator, |r|)
    ensures !Contains(date, OffsetSeparator) ==> r == date
  {
    Split(date, OffsetSeparator)[0]
  }

  /** The formatted date never still holds the offset separator. */
  lemma FormatDateDropsOffset(date: string)
    ensures !Contains(FormatDate(date), OffsetSeparator)
  {
    SplitPiecesAvoidSeparator(date, OffsetSeparator);
  }

  /** The formatted date is exactly the text before the first ` +`:
      whichever position holds the first occurrence, the result ends there. */
  lemma FormatDateFirstOccurrence(date: string, k: nat)
    requires OccursAt(date, OffsetSeparator, k)
    requires forall j: nat :: j < k ==> !OccursAt(date, OffsetSeparator, j)
    ensures FormatDate(date) == date[..k]
  {
    var r := FormatDate(date);
    assert OccursAt(date, OffsetSeparator, |r|);
    assert |r| == k;
  }

  /** `text.slice(0, n)`: at most the first `n` characters. */
  function Truncate(text: string, n: nat): (r: string)
    ensures r <= text
    ensures |r| == Min(|text|, n)
    ensures |text| <= n ==> r == text
  {
    SliceFromZero(text, n);
    Slice(text, 0, n)
  }

  /** What a card shows of one article; a missing text field shows as the
      empty string. */
  datatype Card = Card(
    image: string,
    heading: string,
    summary: string,
    author: string,
    published: string,
    link: string)

  /** The card rendered for `a` in the list at lines 66-75. */
  function CardOf(a: Article): (c: Card)
    ensures |Ellipsis| <= |c.heading| <= TitleLength + |Ellipsis|
    ensures c.heading[..|c.heading| - |Ellipsis|] <= a.title.GetOr("")
    ensures c.heading[|c.heading| - |Ellipsis|..] == Ellipsis
    ensures |Ellipsis| <= |c.summary| <= DescriptionLength + |Ellipsis|
    ensures c.summary[..|c.summary| - |Ellipsis|] <= a.description.GetOr("")
    ensures c.summary[|c.summary| - |Ellipsis|..] == Ellipsis
    ensures c.heading == a.title.GetOr("")[..Min(|a.title.GetOr("")|, TitleLength)] + Ellipsis
    ensures c.summary == a.description.GetOr("")[..Min(|a.description.GetOr("")|, DescriptionLength)] + Ellipsis
    ensures c.published <= a.published.GetOr("")
    ensures c.published == FormatDate(a.published.GetOr(""))
    ensures c.image == a.image.GetOr("")
    ensures c.author == a.author && c.link == a.url
  {
    Card(
      a.image.GetOr(""),
      Truncate(a.title.GetOr(""), TitleLength) + Ellipsis,
      Truncate(a.description.GetOr(""), DescriptionLength) + Ellipsis,
      a.author,
      FormatDate(a.published.GetOr("")),
      a.url)
  }

  /** The cards of a list of articles, in the same order. */
  function Cards(s: seq<Article>): (cs: seq<Card>)
    ensures |cs| == |s|
    ensures forall i :: 0 <= i < |s| ==> cs[i] == CardOf(s[i])
  {
    seq(|s|, i requires 0 <= i < |s| => CardOf(s[i]))
  }
}
