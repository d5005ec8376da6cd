/** Model rows, the per-pair decision, and the two row orderings of the duplicate backfill. */
module Reconcile {
  import opened Graph
  import opened Options
  import opened Sorting

  type Kind = string

  datatype Row = Row(
    id: Id,
    createdAt: Option<int>,
    kind: Kind,
    embedding: seq<real>,
    activation: real,
    confidence: real,
    events: seq<Id>,
    supports: seq<Id>,
    active: bool,
    absorbed: seq<seq<Id>>)  // the merge notes in signal_readings

  type Rows = map<Id, Row>

  predicate Keyed(rows: Rows) {
    forall id | id in rows :: rows[id].id == id
  }

  datatype Decision = AutoMerge | SameIssue | HumanReview | NoMatch

  datatype KindRule = KindRule(
    autoMerge: Option<real>,
    humanReview: Option<real>,
    neverAutoMerge: bool,
    requireHumanReview: bool)

  // The imported reconciler: rule table, embedding cosine, boosted score, default thresholds.
  datatype Reconciler = Reconciler(
    rule: Kind -> KindRule,
    cosine: (seq<real>, seq<real>) -> real,
    adjusted: (Row, Row, real) -> real,
    autoMerge: real,
    humanReview: real)

  datatype Verdict = Verdict(decision: Decision, cosine: real, adjusted: real)

  function ClassifyPair(rc: Reconciler, earlier: Row, later: Row, rule: KindRule, floor: real): Verdict {
    var cosine := rc.cosine(later.embedding, earlier.embedding);
    if cosine < floor then Verdict(NoMatch, cosine, cosine)
    else
      var adjusted := rc.adjusted(later, earlier, cosine);
      var autoAt := if rule.autoMerge.Some? then rule.autoMerge.value else rc.autoMerge;
      var reviewAt := if rule.humanReview.Some? then rule.humanReview.value else rc.humanReview;
      if !rule.neverAutoMerge && !rule.requireHumanReview && adjusted >= autoAt then
        Verdict(AutoMerge, cosine, adjusted)
      else if adjusted >= reviewAt then
        Verdict(if rule.neverAutoMerge || rule.requireHumanReview then HumanReview else SameIssue, cosine, adjusted)
      else
        Verdict(NoMatch, cosine, adjusted)
  }

  function Strength(d: Decision): nat {
    match d
    case NoMatch => 0
    case SameIssue => 1
    case HumanReview => 1
    case AutoMerge => 2
  }

  /** Under one rule, a better-scored pair never gets a weaker decision, whatever the two thresholds are;
      and a kind-blocked rule yields neither merges nor same-issue candidates. */
  lemma DecisionFollowsScore(rc: Reconciler, e: Row, l: Row, e': Row, l': Row, rule: KindRule, floor: real)
    requires rc.cosine(l.embedding, e.embedding) <= rc.cosine(l'.embedding, e'.embedding)
    requires ClassifyPair(rc, e, l, rule, floor).adjusted <= ClassifyPair(rc, e', l', rule, floor).adjusted
    ensures Strength(ClassifyPair(rc, e, l, rule, floor).decision) <=
            Strength(ClassifyPair(rc, e', l', rule, floor).decision)
    ensures rule.neverAutoMerge || rule.requireHumanReview ==>
              ClassifyPair(rc, e, l, rule, floor).decision in {HumanReview, NoMatch}
  {
  }

  function AutoMergeAt(rc: Reconciler, rule: KindRule): real {
    if rule.autoMerge.Some? then rule.autoMerge.value else rc.autoMerge
  }

  function HumanReviewAt(rc: Reconciler, rule: KindRule): real {
    if rule.humanReview.Some? then rule.humanReview.value else rc.humanReview
  }

  predicate Blocked(rule: KindRule) { rule.neverAutoMerge || rule.requireHumanReview }

  /** When each decision is taken. Reaching the merge threshold is enough to merge, also below the review
      threshold; a blocked kind needs the review threshold. */
  lemma DecisionMeaning(rc: Reconciler, e: Row, l: Row, rule: KindRule, floor: real)
    ensures var cosine := rc.cosine(l.embedding, e.embedding);
      var score := rc.adjusted(l, e, cosine);
      var decision := ClassifyPair(rc, e, l, rule, floor).decision;
      && (decision == AutoMerge <==> cosine >= floor && !Blocked(rule) && score >= AutoMergeAt(rc, rule))
      && (decision == HumanReview <==> cosine >= floor && Blocked(rule) && score >= HumanReviewAt(rc, rule))
      && (decision == SameIssue <==>
            cosine >= floor && !Blocked(rule) && HumanReviewAt(rc, rule) <= score < AutoMergeAt(rc, rule))
  {
  }

  /** A kind without its own thresholds decides like one that names the defaults. */
  lemma DefaultsFillIn(rc: Reconciler, e: Row, l: Row, rule: KindRule, floor: real)
    ensures ClassifyPair(rc, e, l, rule, floor) ==
            ClassifyPair(rc, e, l,
                         rule.(autoMerge := Some(AutoMergeAt(rc, rule)),
                               humanReview := Some(HumanReviewAt(rc, rule))), floor)
  {
  }

  /** (earlier, later) by creation time; a row without one counts as later; ties fall to the id order. */
  function OrientPair(a: Row, b: Row): (Row, Row) {
    match (a.createdAt, b.createdAt)
    case (None, None) => if a.id < b.id then (a, b) else (b, a)
    case (None, Some(_)) => (b, a)
    case (Some(_), None) => (a, b)
    case (Some(s), Some(t)) =>
      if s < t then (a, b) else if s > t then (b, a)
      else if a.id < b.id then (a, b) else (b, a)
  }

  /** Which side found the pair does not matter: the unordered pair has one orientation. */
  lemma OrientPairUnordered(a: Row, b: Row)
    requires a.id != b.id
    ensures OrientPair(a, b) == OrientPair(b, a)
    ensures OrientPair(a, b) in {(a, b), (b, a)}
  {
  }

  /** The first of the oriented pair was created no later, missing times counting as latest; on equal times it
      has the smaller id. */
  lemma OrientPairMeaning(a: Row, b: Row)
    requires a.id != b.id
    ensures var (e, l) := OrientPair(a, b);
      && (l.createdAt.Some? ==> e.createdAt.Some? && e.createdAt.value <= l.createdAt.value)
      && (e.createdAt == l.createdAt ==> e.id < l.id)
  {
  }

  // Highest activation, then earliest creation (a missing time counts as 0), then lowest id.
  predicate Preferred(a: Row, b: Row) {
    var s := if a.createdAt.Some? then a.createdAt.value else 0;
    var t := if b.createdAt.Some? then b.createdAt.value else 0;
    a.activation > b.activation || (a.activation == b.activation && (s < t || (s == t && a.id <= b.id)))
  }

  function PickCanonical(members: seq<Id>, rows: Rows): (best: Id)
    requires |members| > 0 && forall m | m in members :: m in rows
    ensures best in members
    ensures forall m | m in members :: Preferred(rows[best], rows[m])
  {
    if |members| == 1 then members[0]
    else
      var rest := PickCanonical(members[1..], rows);
      if Preferred(rows[members[0]], rows[rest]) then members[0] else rest
  }

  /** The choice depends on the set of members only. */
  lemma CanonicalIgnoresOrder(members: seq<Id>, others: seq<Id>, rows: Rows)
    requires |members| > 0 && |others| > 0 && (forall m :: m in members <==> m in others)
    requires Keyed(rows) && forall m | m in members :: m in rows
    ensures PickCanonical(members, rows) == PickCanonical(others, rows)
  {
    var a, b := PickCanonical(members, rows), PickCanonical(others, rows);
    assert Preferred(rows[a], rows[b]) && Preferred(rows[b], rows[a]);
  }

  /** In the rows' own fields: no member has a higher activation; of those as high none was created earlier, a missing
      time counting as 0; and of those as early none has a smaller id. */
  lemma CanonicalMeaning(members: seq<Id>, rows: Rows, m: Id)
    requires |members| > 0 && (forall x | x in members :: x in rows) && m in members
    ensures var best, other := rows[PickCanonical(members, rows)], rows[m];
      var s := if best.createdAt == None then 0 else best.createdAt.value;
      var t := if other.createdAt == None then 0 else other.createdAt.value;
      && other.activation <= best.activation
      && (other.activation == best.activation ==> s <= t)
      && (other.activation == best.activation && s == t ==> best.id <= other.id)
  {
    assert Preferred(rows[PickCanonical(members, rows)], rows[m]);
  }

  predicate IdLe(a: Id, b: Id) { a <= b }

  /** `sorted(..., key=str)`. */
  function SortIds(s: seq<Id>): seq<Id> { Sort(s, IdLe) }

  lemma SortIdsMeaning(s: seq<Id>)
    ensures Sorted(SortIds(s), IdLe) && multiset(SortIds(s)) == multiset(s)
    ensures |SortIds(s)| == |s| && forall y :: y in SortIds(s) <==> y in s
  {
    SortMeaning(s, IdLe);
  }
}
