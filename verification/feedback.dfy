/** The feedback panel component (components/Feedback.js), which takes a
    `feedbacks` list and which none of the app's screens renders: the
    average rating, the optional exact-rating filter, and the row of five
    stars drawn for each rating. */
module FeedbackPanel {
  import opened Optional
  import opened Sequences

  /** Ratings are taken to be whole numbers of stars. */
  datatype Feedback = Feedback(id: string, username: string, rating: int, comment: string)

  /** Reference sum of the ratings, grouped from the right. */
  function SumRatings(fs: seq<Feedback>): int
  {
    if |fs| == 0 then 0 else fs[0].rating + SumRatings(fs[1..])
  }

  /** The left fold of `feedbacks.reduce((acc, feedback) => acc + feedback.rating, 0)`,
      continued from accumulator `acc`. */
  function ReduceRatings(acc: int, fs: seq<Feedback>): int
    decreases |fs|
  {
    if |fs| == 0 then acc else ReduceRatings(acc + fs[0].rating, fs[1..])
  }

  /** The left fold started at `acc` adds the reference sum to `acc`. */
  lemma {:induction false} ReduceIsSum(acc: int, fs: seq<Feedback>)
    ensures ReduceRatings(acc, fs) == acc + SumRatings(fs)
    decreases |fs|
  {
    if |fs| > 0 {
      ReduceIsSum(acc + fs[0].rating, fs[1..]);
    }
  }

  /** `totalRating`: the fold started at 0. */
  function TotalRating(fs: seq<Feedback>): (total: int)
    ensures total == SumRatings(fs)
  {
    ReduceIsSum(0, fs);
    ReduceRatings(0, fs)
  }

  /** `calculateAverageRating` before `toFixed(1)`: 0 for an empty list,
      otherwise the total divided by the count. */
  function AverageRating(fs: seq<Feedback>): (avg: real)
    ensures |fs| == 0 ==> avg == 0.0
    ensures |fs| > 0 ==> avg * (|fs| as real) == TotalRating(fs) as real
  {
    if |fs| == 0 then 0.0 else TotalRating(fs) as real / (|fs| as real)
  }

  /** Every rating lies in `[lo, hi]`. */
  predicate RatingsWithin(fs: seq<Feedback>, lo: int, hi: int)
  {
    forall f :: f in fs ==> lo <= f.rating <= hi
  }

  /** A sum of `n` ratings in `[lo, hi]` lies in `[lo * n, hi * n]`. */
  lemma {:induction false} SumWithin(fs: seq<Feedback>, lo: int, hi: int)
    requires RatingsWithin(fs, lo, hi)
    ensures lo * |fs| <= SumRatings(fs) <= hi * |fs|
  {
    if |fs| > 0 {
      assert fs[0] in fs;
      assert RatingsWithin(fs[1..], lo, hi) by {
        forall f | f in fs[1..] ensures lo <= f.rating <= hi {
          assert f in fs;
        }
      }
      var rest := fs[1..];
      SumWithin(rest, lo, hi);
      assert lo * |fs| == lo * |rest| + lo;
      assert hi * |fs| == hi * |rest| + hi;
    }
  }

  /** Converting a product of integers to a real multiplies the conversions. */
  lemma CastProduct(a: int, b: int)
    ensures (a * b) as real == (a as real) * (b as real)
  {
  }

  /** A total of `count` values in `[lo, hi]`, divided by `count`, lies in
      `[lo, hi]`. */
  lemma MeanWithin(total: int, count: int, lo: int, hi: int)
    requires count > 0 && lo * count <= total <= hi * count
    ensures lo as real <= total as real / count as real <= hi as real
  {
    CastProduct(lo, count);
    CastProduct(hi, count);
    var n := count as real;
    assert (total as real / n) * n == total as real;
  }

  /** The average of a non-empty list of ratings in `[lo, hi]` lies in
      `[lo, hi]`; with the 1-to-5 star ratings it is between 1 and 5. */
  lemma AverageWithin(fs: seq<Feedback>, lo: int, hi: int)
    requires RatingsWithin(fs, lo, hi) && |fs| > 0
    ensures lo as real <= AverageRating(fs) <= hi as real
  {
    SumWithin(fs, lo, hi);
    MeanWithin(TotalRating(fs), |fs|, lo, hi);
  }

  /** `if (selectedRating)`: `null` and 0 are falsy. */
  predicate RatingSelected(selectedRating: Option<int>)
  {
    selectedRating.Some? && selectedRating.value != 0
  }

  /** `filterFeedbacks`: with a rating selected, the feedbacks with exactly
      that rating in their original order; otherwise the list itself. */
  function FilterFeedbacks(fs: seq<Feedback>, selectedRating: Option<int>): (r: seq<Feedback>)
    ensures !RatingSelected(selectedRating) ==> r == fs
    ensures RatingSelected(selectedRating) ==>
              && IsSubseq(r, fs)
              && (forall f :: f in r <==> f in fs && f.rating == selectedRating.value)
              && forall f :: multiset(r)[f] == if f.rating == selectedRating.value then multiset(fs)[f] else 0
  {
    if selectedRating.Some? && selectedRating.value != 0 then
      var wanted := selectedRating.value;
      Filter((f: Feedback) => f.rating == wanted, fs)
    else fs
  }

  /** The panel's buttons: the filter-remove button and one button per star
      count. */
  datatype RatingAction = ClearFilter | PickRating(stars: int)

  /** `setSelectedRating(null)` and `setSelectedRating(rating)`. */
  function ApplyRatingAction(selectedRating: Option<int>, a: RatingAction): (s: Option<int>)
    ensures a.ClearFilter? ==> s == None && !RatingSelected(s)
    ensures a.PickRating? && a.stars != 0 ==> RatingSelected(s) && s.value == a.stars
  {
    match a
    case ClearFilter => None
    case PickRating(stars) => Some(stars)
  }

  /** Picking any rating and then clearing gives back the whole list. */
  lemma PickThenClearShowsAll(fs: seq<Feedback>, selectedRating: Option<int>, stars: int)
    ensures var s := ApplyRatingAction(ApplyRatingAction(selectedRating, PickRating(stars)), ClearFilter);
            FilterFeedbacks(fs, s) == fs
  {
  }

  /** Number of stars drawn per feedback. */
  const StarCount: nat := 5

  /** `rating` limited to `[lo, hi]`. */
  function Clamp(rating: int, lo: int, hi: int): int
    requires lo <= hi
  {
    if rating < lo then lo else if rating > hi then hi else rating
  }

  /** `[...Array(5)].map((_, index) => index < feedback.rating ? "star" : ...)`:
      the glyph row, `true` for a filled star, and the number of filled stars
      in that row, which is the rating clamped to `[0, 5]`. */
  method StarRow(rating: int) returns (row: seq<bool>, filled: nat)
    ensures |row| == StarCount
    ensures forall index :: 0 <= index < StarCount ==> (row[index] <==> index < rating)
    ensures filled == multiset(row)[true]
    ensures filled == Clamp(rating, 0, StarCount)
  {
    row, filled := [], 0;
    for index := 0 to StarCount
      invariant |row| == index
      invariant forall k :: 0 <= k < index ==> (row[k] <==> k < rating)
      invariant filled == multiset(row)[true]
      invariant filled == Clamp(rating, 0, index)
    {
      var lit := index < rating;
      row := row + [lit];
      if lit {
        filled := filled + 1;
      }
    }
  }
}
