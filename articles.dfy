/**
 * The articles of the feed and the image filter applied to a fetched
 * `news` list.
 */
module Articles {
  import opened Wrappers

  /** One entry of the `news` list. A field the response may leave out is an
      `Option`; the source reads `author` and `url` straight into the markup,
      where a missing value shows as nothing, so those are plain strings. */
  datatype Article = Article(
    title: Option<string>,
    description: Option<string>,
    author: string,
    published: Option<string>,
    image: Option<string>,
    url: string)

  /** `article.image` is truthy: present, and not the empty string. */
  predicate HasImage(a: Article) {
    a.image.Some? && a.image.value != ""
  }

  /** `news.filter(article => article.image)`. */
  function FilterWithImage(news: seq<Article>): (r: seq<Article>)
    ensures |r| <= |news|
    ensures forall i :: 0 <= i < |r| ==> HasImage(r[i])
    ensures forall a :: a in r <==> a in news && HasImage(a)
  {
    if news == [] then []
    else if HasImage(news[0]) then [news[0]] + FilterWithImage(news[1..])
    else FilterWithImage(news[1..])
  }

  /** `a` is `b` with some elements removed and the rest in their order. */
  ghost predicate IsSubsequence(a: seq<Article>, b: seq<Article>)
    decreases |b|
  {
    if a == [] then true
    else if b == [] then false
    else if a[0] == b[0] then IsSubsequence(a[1..], b[1..])
    else IsSubsequence(a, b[1..])
  }

  /** Filtering works piece by piece: the kept articles of a concatenation are
      those of the first part followed by those of the second, so the filter
      never reorders. */
  lemma {:induction false} FilterAppend(a: seq<Article>, b: seq<Article>)
    ensures FilterWithImage(a + b) == FilterWithImage(a) + FilterWithImage(b)
  {
    if a == [] {
      assert a + b == b;
    } else {
      assert (a + b)[0] == a[0] && (a + b)[1..] == a[1..] + b;
      FilterAppend(a[1..], b);
    }
  }

  /** The filtered list keeps the relative order of the fetched list. */
  lemma {:induction false} FilterIsSubsequence(news: seq<Article>)
    ensures IsSubsequence(FilterWithImage(news), news)
  {
    if news != [] {
      FilterIsSubsequence(news[1..]);
      var kept := FilterWithImage(news[1..]);
      if !HasImage(news[0]) && kept != [] {
        // the first kept article has an image, so it is not the dropped head
        assert HasImage(kept[0]) && kept[0] != news[0];
      }
    }
  }

  /** Each article is kept as often as it occurs, or dropped altogether. */
  lemma {:induction false} FilterCounts(news: seq<Article>, a: Article)
    ensures multiset(FilterWithImage(news))[a] == if HasImage(a) then multiset(news)[a] else 0
  {
    if news != [] {
      FilterCounts(news[1..], a);
      assert news == [news[0]] + news[1..];
    }
  }

  /** Filtering an already filtered list changes nothing. */
  lemma {:induction false} FilterIdempotent(news: seq<Article>)
    ensures FilterWithImage(FilterWithImage(news)) == FilterWithImage(news)
  {
    if news != [] {
      FilterIdempotent(news[1..]);
    }
  }

  /** The filter returns its input exactly when every article has an image. */
  lemma {:induction false} FilterKeepsAllIff(news: seq<Article>)
    ensures FilterWithImage(news) == news <==> forall i :: 0 <= i < |news| ==> HasImage(news[i])
  {
    if news != [] {
      FilterKeepsAllIff(news[1..]);
      if !HasImage(news[0]) {
        assert |FilterWithImage(news)| < |news|;
      } else {
        assert forall i :: 1 <= i < |news| ==> news[i] == news[1..][i - 1];
      }
    }
  }
}
