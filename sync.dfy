/**
 * The startup sync pass of app/main.py (create_issues_from_csv): build the set of
 * titles of the issues already in the tracker, then walk the dataset rows in order,
 * skip every row whose title is in that set and post an issue for every other row.
 *
 * The tracker is not modelled: a post is the PostRequest the pass emits, and the
 * response is ignored, as in the source. A post whose call raises is caught and
 * reported, and the pass carries on with the next row.
 */
module Sync {
  import opened Wrappers
  import opened Render

  /** The titles of the listed issues that have a title; issues without one contribute nothing. */
  function SkipSet(existing: seq<Option<string>>): (skip: set<string>)
    ensures forall t :: t in skip <==> Some(t) in existing
  {
    if existing == [] then {}
    else
      (match existing[0] case Some(t) => {t} case None => {}) + SkipSet(existing[1..])
  }

  /** The positions of the rows the pass posts: those whose title is not in `skip`, in row order. */
  function PostedRows(rows: seq<Row>, skip: set<string>): (r: seq<nat>)
    ensures forall k :: 0 <= k < |r| ==> r[k] < |rows|
    ensures forall k, l :: 0 <= k < l < |r| ==> r[k] < r[l]
    ensures forall i: nat :: i in r <==> i < |rows| && Title(rows[i]) !in skip
    decreases |rows|
  {
    if rows == [] then []
    else
      var n := |rows| - 1;
      PostedRows(rows[..n], skip) + (if Title(rows[n]) in skip then [] else [n])
  }

  /** The post requests a pass over `rows` emits against the fixed set `skip`, in emission order. */
  function Plan(rows: seq<Row>, skip: set<string>): seq<PostRequest>
    decreases |rows|
  {
    if rows == [] then []
    else
      var n := |rows| - 1;
      Plan(rows[..n], skip) + (if Title(rows[n]) in skip then [] else [Request(rows[n])])
  }

  /** The positions of the posted rows whose post call raises (`raises` holds the positions at which it does). */
  function FailedRows(rows: seq<Row>, skip: set<string>, raises: set<nat>): (r: seq<nat>)
    ensures forall i: nat :: i in r <==> i in PostedRows(rows, skip) && i in raises
    decreases |rows|
  {
    if rows == [] then []
    else
      var n := |rows| - 1;
      FailedRows(rows[..n], skip, raises) + (if Title(rows[n]) in skip || n !in raises then [] else [n])
  }

  /**
   * The startup sync pass. `dataset` is None when papers.csv could not be read;
   * `existing` is the issue listing (None for an entry without a title);
   * `raises` holds the row positions at which the post call raises.
   * Returns the post requests in the order they are made, and the positions of
   * the rows whose processing ended in the error handler.
   */
  method CreateIssuesFromCsv(dataset: Option<seq<Row>>, existing: seq<Option<string>>, raises: set<nat>)
    returns (posts: seq<PostRequest>, failed: seq<nat>)
    ensures dataset.None? ==> posts == [] && failed == []
    ensures dataset.Some? ==> posts == Plan(dataset.value, SkipSet(existing))
    ensures dataset.Some? ==> failed == FailedRows(dataset.value, SkipSet(existing), raises)
  {
    if dataset.None? {
      return [], [];
    }
    var rows := dataset.value;
    var existingTitles := SkipSet(existing);
    posts, failed := [], [];
    for i := 0 to |rows|
      invariant posts == Plan(rows[..i], existingTitles)
      invariant failed == FailedRows(rows[..i], existingTitles, raises)
    {
      assert rows[..i + 1][..i] == rows[..i];
      var row := rows[i];
      var title := Title(row);
      if title in existingTitles {
        continue;
      }
      var body := Body(row);
      var labels := Labels(row);
      posts := posts + [PostRequest(title, body, labels)];
      if i in raises {
        failed := failed + [i];
      }
    }
    assert rows[..|rows|] == rows;
  }

  /** The k-th request is the request of the k-th posted row. */
  lemma {:induction false} PlanFollowsPostedRows(rows: seq<Row>, skip: set<string>)
    ensures |Plan(rows, skip)| == |PostedRows(rows, skip)|
    ensures forall k :: 0 <= k < |Plan(rows, skip)| ==> Plan(rows, skip)[k] == Request(rows[PostedRows(rows, skip)[k]])
    decreases |rows|
  {
    if rows != [] {
      var n := |rows| - 1;
      var pre := rows[..n];
      PlanFollowsPostedRows(pre, skip);
      var plan, posted := Plan(rows, skip), PostedRows(rows, skip);
      var planPre, postedPre := Plan(pre, skip), PostedRows(pre, skip);
      assert plan == planPre + (if Title(rows[n]) in skip then [] else [Request(rows[n])]);
      assert posted == postedPre + (if Title(rows[n]) in skip then [] else [n]);
      forall k | 0 <= k < |plan|
        ensures plan[k] == Request(rows[posted[k]])
      {
        if k < |planPre| {
          assert plan[k] == planPre[k] && posted[k] == postedPre[k];
          assert pre[postedPre[k]] == rows[postedPre[k]];
        }
      }
    }
  }

  /** No request carries a title from the skip set. */
  lemma {:induction false} PlanAvoidsSkipSet(rows: seq<Row>, skip: set<string>)
    ensures forall k :: 0 <= k < |Plan(rows, skip)| ==> Plan(rows, skip)[k].title !in skip
  {
    PlanFollowsPostedRows(rows, skip);
  }

  /**
   * A row whose title is absent from the skip set is posted, with its own title, body and labels.
   * It is posted only once, since PostedRows is strictly increasing.
   */
  lemma {:induction false} AbsentRowPostedOnce(rows: seq<Row>, skip: set<string>, i: nat)
    requires i < |rows| && Title(rows[i]) !in skip
    ensures |Plan(rows, skip)| == |PostedRows(rows, skip)|
    ensures exists k :: 0 <= k < |Plan(rows, skip)| && PostedRows(rows, skip)[k] == i && Plan(rows, skip)[k] == Request(rows[i])
  {
    PlanFollowsPostedRows(rows, skip);
    var posted := PostedRows(rows, skip);
    assert i in posted;
    var k :| 0 <= k < |posted| && posted[k] == i;
    assert Plan(rows, skip)[k] == Request(rows[i]);
  }

  /** Requests come out in row order: of two posted rows, the earlier row's request comes first. */
  lemma PlanInRowOrder(rows: seq<Row>, skip: set<string>, i: nat, j: nat)
    requires i < j < |rows| && Title(rows[i]) !in skip && Title(rows[j]) !in skip
    ensures exists k, l :: 0 <= k < l < |Plan(rows, skip)| && Plan(rows, skip)[k] == Request(rows[i]) && Plan(rows, skip)[l] == Request(rows[j])
  {
    PlanFollowsPostedRows(rows, skip);
    var posted := PostedRows(rows, skip);
    assert i in posted && j in posted;
    var k :| 0 <= k < |posted| && posted[k] == i;
    var l :| 0 <= l < |posted| && posted[l] == j;
    assert k < l;
    assert Plan(rows, skip)[k] == Request(rows[i]) && Plan(rows, skip)[l] == Request(rows[j]);
  }

  /**
   * The skip set is fixed before the loop, so two rows with the same title that is
   * absent from it are both posted, the earlier one first.
   */
  lemma DuplicateAbsentTitlesBothPosted(rows: seq<Row>, skip: set<string>, i: nat, j: nat)
    requires i < j < |rows| && Title(rows[i]) == Title(rows[j]) && Title(rows[i]) !in skip
    ensures exists k, l :: 0 <= k < l < |Plan(rows, skip)| && Plan(rows, skip)[k].title == Plan(rows, skip)[l].title == Title(rows[i])
  {
    PlanInRowOrder(rows, skip, i, j);
  }

  /** The pass emits nothing exactly when every row's title is already in the skip set. */
  lemma {:induction false} NothingPostedIffAllExisting(rows: seq<Row>, skip: set<string>)
    ensures Plan(rows, skip) == [] <==> forall i :: 0 <= i < |rows| ==> Title(rows[i]) in skip
  {
    PlanFollowsPostedRows(rows, skip);
    var posted := PostedRows(rows, skip);
    if posted != [] {
      assert posted[0] in posted;
    }
  }

  /** The issue listing after a pass whose posts all landed: the old listing followed by one titled issue per post. */
  function AfterLanding(existing: seq<Option<string>>, posts: seq<PostRequest>): seq<Option<string>>
  {
    existing + seq(|posts|, k requires 0 <= k < |posts| => Some(posts[k].title))
  }

  /** Re-running the pass after every post of a first pass landed posts nothing. */
  lemma RerunPostsNothing(rows: seq<Row>, existing: seq<Option<string>>)
    ensures Plan(rows, SkipSet(AfterLanding(existing, Plan(rows, SkipSet(existing))))) == []
  {
    var skip := SkipSet(existing);
    var posts := Plan(rows, skip);
    var after := AfterLanding(existing, posts);
    forall i | 0 <= i < |rows|
      ensures Title(rows[i]) in SkipSet(after)
    {
      if Title(rows[i]) in skip {
        assert after[..|existing|] == existing;
        assert Some(Title(rows[i])) in after[..|existing|];
      } else {
        AbsentRowPostedOnce(rows, skip, i);
        var k :| 0 <= k < |posts| && posts[k] == Request(rows[i]);
        assert after[|existing| + k] == Some(Title(rows[i]));
      }
    }
    NothingPostedIffAllExisting(rows, SkipSet(after));
  }
}
