/**
  The like and comment counters of a short, as both public/script.js and
  public/js/shorts.js keep them: the count lives in the element's text, is read
  with parseInt, changed, and written back with String().
 */
module Counters {
  import opened Js

  /** The like count after a toggle: one more when the button became active, otherwise one less but not below zero. */
  function NextLikeCount(count: Num, active: bool): (n: Num)
    ensures n.Finite? <==> count.Finite?
    ensures n.Finite? && active ==> n.v == count.v + 1
    ensures n.Finite? && !active ==> n.v >= 0 && (count.v >= 1 ==> n.v == count.v - 1) && (count.v < 1 ==> n.v == 0)
  {
    if active then Add(count, Finite(1)) else Max0(Sub(count, Finite(1)))
  }

  /** The counter text after a like toggle. */
  function NextLikeText(text: string, active: bool): (t: string)
    ensures ParseInt(t) == NextLikeCount(ParseInt(text), active)
  {
    ParseIntNumText(NextLikeCount(ParseInt(text), active));
    NumText(NextLikeCount(ParseInt(text), active))
  }

  /** Liking and then un-liking puts a shown count back as it was. */
  lemma LikeThenUnlike(n: nat)
    ensures NextLikeText(NextLikeText(IntText(n), true), false) == IntText(n)
  {
    ParseIntText(n);
    ParseIntText(n + 1);
  }

  /** Un-liking never shows a negative number: the text reads back as NaN or as a count of at least zero. */
  lemma UnlikeNeverNegative(text: string)
    ensures var n := ParseInt(NextLikeText(text, false)); n.NaN? || n.v >= 0
  {
    ParseIntNumText(NextLikeCount(ParseInt(text), false));
  }

  /** A counter whose text is not a number stays "NaN" whatever the button does. */
  lemma NaNSticks(text: string, active: bool)
    requires ParseInt(text).NaN?
    ensures NextLikeText(text, active) == "NaN"
  {
  }

  /** The comment count after a posted comment: `(parseInt(text) || 0) + 1`. */
  function NextCommentText(text: string): (t: string)
    ensures ParseInt(t) == Finite(OrZero(ParseInt(text)) + 1)
  {
    ParseIntText(OrZero(ParseInt(text)) + 1);
    IntText(OrZero(ParseInt(text)) + 1)
  }

  /** A posted comment raises a shown count by exactly one. */
  lemma CommentCountStep(n: int)
    ensures NextCommentText(IntText(n)) == IntText(n + 1)
  {
    ParseIntText(n);
  }

  /** A comment count that is not a number restarts at one. */
  lemma CommentCountRestarts(text: string)
    requires ParseInt(text).NaN?
    ensures NextCommentText(text) == IntText(1)
  {
  }
}
