/**
 * The scoring pipeline: the dispatcher announces one scorer per site and then
 * that no more will come, each scorer sets its site's score and delivers it, and
 * the accumulator counts scorers in and out until all have delivered.
 *
 * The goroutines and channels are not modelled. What the accumulator sees is a
 * trace: the events it receives, in the order its `select` takes them. A trace
 * is a schedule of a dispatch when its announcements are exactly what the
 * dispatcher sent, in order, its deliveries are exactly what the scorers
 * delivered, in some order, and no delivery is received before its scorer was
 * announced (scorerCreated is unbuffered and the scorer starts after the send).
 */
module Scoring {
  import opened Common
  import opened Records

  /** A message received by the accumulator: on scorerCreated, on noMoreScorers, or a site on scores. */
  datatype Signal = Created | NoMore | Delivered(site: Site)

  /** `score`: the scorer sets the score to 0 and delivers the site; nothing else about the site changes. */
  function Score(s: Site): (delivered: Site)
    ensures delivered.score == 0
    ensures delivered.(score := s.score) == s
  {
    s.(score := 0)
  }

  function Creations(n: nat): seq<Signal> {
    seq(n, _ => Created)
  }

  /** What the dispatcher sends for `n` sites: one Created per site, then a single NoMore. */
  function Announced(n: nat): seq<Signal> {
    Creations(n) + [NoMore]
  }

  /**
   * `scoringDispatcher`: every site passes the filter (it is `if true`), so one
   * Created is sent and one scorer launched per site, in order, and then NoMore.
   * `scored` lists what the launched scorers deliver.
   */
  method ScoringDispatcher(sites: seq<Site>) returns (sent: seq<Signal>, scored: seq<Site>)
    ensures sent == Announced(|sites|)
    ensures |scored| == |sites|
    ensures forall i :: 0 <= i < |sites| ==> scored[i] == Score(sites[i])
  {
    sent, scored := [], [];
    for i := 0 to |sites|
      invariant sent == Creations(i)
      invariant |scored| == i
      invariant forall j :: 0 <= j < i ==> scored[j] == Score(sites[j])
    {
      sent := sent + [Created];
      scored := scored + [Score(sites[i])];
    }
    sent := sent + [NoMore];
  }

  /** Number of Created messages in a trace. */
  function CreatedCount(t: seq<Signal>): nat {
    if t == [] then 0 else CreatedCount(t[..|t| - 1]) + (if t[|t| - 1].Created? then 1 else 0)
  }

  /** Number of NoMore messages in a trace. */
  function NoMoreCount(t: seq<Signal>): nat {
    if t == [] then 0 else NoMoreCount(t[..|t| - 1]) + (if t[|t| - 1].NoMore? then 1 else 0)
  }

  /** The delivered sites, in the order they were received. */
  function DeliveredSites(t: seq<Signal>): seq<Site> {
    if t == [] then []
    else DeliveredSites(t[..|t| - 1]) + (if t[|t| - 1].Delivered? then [t[|t| - 1].site] else [])
  }

  /** The announcements of a trace (its Created and NoMore messages), in order. */
  function Signals(t: seq<Signal>): seq<Signal> {
    if t == [] then []
    else Signals(t[..|t| - 1]) + (if t[|t| - 1].Delivered? then [] else [t[|t| - 1]])
  }

  function ScoresOf(sites: seq<Site>): seq<int> {
    seq(|sites|, i requires 0 <= i < |sites| => sites[i].score)
  }

  /** No delivery is received before as many Created messages as deliveries so far. */
  predicate CreationFirst(t: seq<Signal>) {
    forall k :: 0 <= k <= |t| ==> |DeliveredSites(t[..k])| <= CreatedCount(t[..k])
  }

  /** `t` is an order in which the accumulator may receive what the dispatcher sent and the scorers delivered. */
  predicate Schedule(t: seq<Signal>, sent: seq<Signal>, scored: seq<Site>) {
    && Signals(t) == sent
    && multiset(DeliveredSites(t)) == multiset(scored)
    && CreationFirst(t)
  }

  /** The accumulator's variables: outstanding scorers, whether NoMore was received, and the scores collected. */
  datatype Acc = Acc(scorers: int, done: bool, results: seq<int>)

  const Idle := Acc(0, false, [])

  /** The effect of one received message on the accumulator's variables. */
  function Apply(a: Acc, e: Signal): Acc {
    match e
    case Created => a.(scorers := a.scorers + 1)
    case NoMore => a.(done := true)
    case Delivered(s) => a.(results := a.results + [s.score], scorers := a.scorers - 1)
  }

  /** Whether the accumulator returns right after `e` took it to state `a`: only NoMore and deliveries test for completion. */
  predicate ReturnsOn(a: Acc, e: Signal) {
    !e.Created? && a.done && a.scorers == 0
  }

  /** The accumulator from state `a` on the messages `t`: the results it returns, or None while it still waits. */
  function Run(a: Acc, t: seq<Signal>): Option<seq<int>>
    decreases |t|
  {
    if t == [] then None
    else
      var next := Apply(a, t[0]);
      if ReturnsOn(next, t[0]) then Some(next.results) else Run(next, t[1..])
  }

  function Accumulate(t: seq<Signal>): Option<seq<int>> {
    Run(Idle, t)
  }

  /** The accumulator's variables after all of `t`, ignoring returns. */
  function Fold(t: seq<Signal>): Acc {
    if t == [] then Idle else Apply(Fold(t[..|t| - 1]), t[|t| - 1])
  }

  /** The accumulator did not return on any of the first `k` messages. */
  predicate QuietUntil(t: seq<Signal>, k: nat)
    requires k <= |t|
  {
    forall j :: 1 <= j <= k ==> !ReturnsOn(Fold(t[..j]), t[j - 1])
  }

  /**
   * `resultsAccumulator`, taking its messages from `received` in order: it returns
   * the results when it completes, and None when the messages run out first (the
   * goroutine would block for ever).
   */
  method ResultsAccumulator(received: seq<Signal>) returns (r: Option<seq<int>>)
    ensures r == Accumulate(received)
  {
    var results: seq<int> := [];
    var done := false;
    var scorers := 0;
    var i := 0;
    while i < |received|
      invariant i <= |received|
      decreases |received| - i
      invariant Run(Acc(scorers, done, results), received[i..]) == Accumulate(received)
    {
      assert received[i..][1..] == received[i + 1..];
      match received[i] {
        case Created =>
          scorers := scorers + 1;
        case NoMore =>
          done := true;
          if scorers == 0 {
            return Some(results);
          }
        case Delivered(s) =>
          results := results + [s.score];
          scorers := scorers - 1;
          if done && scorers == 0 {
            return Some(results);
          }
      }
      i := i + 1;
    }
    return None;
  }

  /** The accumulator's variables count the messages: scorers is creations minus deliveries, done is whether a NoMore came, results are the delivered scores in order. */
  lemma {:induction false} FoldCounts(t: seq<Signal>)
    ensures Fold(t) == Acc(CreatedCount(t) - |DeliveredSites(t)|, NoMoreCount(t) > 0, ScoresOf(DeliveredSites(t)))
  {
    if t != [] {
      var init := t[..|t| - 1];
      FoldCounts(init);
      var e := t[|t| - 1];
      if e.Delivered? {
        assert ScoresOf(DeliveredSites(init) + [e.site]) == ScoresOf(DeliveredSites(init)) + [e.site.score];
      }
    }
  }

  /** If every delivery follows a creation, the count of outstanding scorers is never negative. */
  lemma OutstandingNeverNegative(t: seq<Signal>, k: nat)
    requires CreationFirst(t) && k <= |t|
    ensures Fold(t[..k]).scorers >= 0
  {
    FoldCounts(t[..k]);
  }

  /** While the accumulator has not returned, what it does next depends only on the messages it has taken so far through Fold. */
  lemma {:induction false} RunFold(t: seq<Signal>, k: nat)
    requires k <= |t| && QuietUntil(t, k)
    ensures Accumulate(t) == Run(Fold(t[..k]), t[k..])
  {
    if k == 0 {
      assert t[..0] == [] && t[0..] == t;
    } else {
      RunFold(t, k - 1);
      assert t[..k][..k - 1] == t[..k - 1];
      assert t[k - 1..][1..] == t[k..];
      assert !ReturnsOn(Fold(t[..k]), t[k - 1]);
    }
  }

  /**
   * The accumulator returns only on a NoMore or a delivery after which NoMore has
   * been received and no scorer is outstanding, at the first such message, with the
   * scores collected up to it.
   */
  lemma ReturnsOnFirstCompletion(t: seq<Signal>) returns (k: nat)
    requires Accumulate(t).Some?
    ensures 1 <= k <= |t| && QuietUntil(t, k - 1)
    ensures !t[k - 1].Created? && Fold(t[..k]).done && Fold(t[..k]).scorers == 0
    ensures Accumulate(t) == Some(Fold(t[..k]).results)
  {
    k := 1;
    while k <= |t| && !ReturnsOn(Fold(t[..k]), t[k - 1])
      invariant 1 <= k <= |t| + 1 && QuietUntil(t, k - 1)
    {
      k := k + 1;
    }
    if k > |t| {
      assert t[|t|..] == [];
      RunFold(t, |t|);
    } else {
      RunFold(t, k - 1);
      assert t[k - 1..][1..] == t[k..];
      assert t[..k][..k - 1] == t[..k - 1];
    }
  }

  /** A trace has as many messages as creations, NoMores and deliveries together. */
  lemma {:induction false} Partition(t: seq<Signal>)
    ensures |t| == CreatedCount(t) + NoMoreCount(t) + |DeliveredSites(t)|
  {
    if t != [] {
      Partition(t[..|t| - 1]);
    }
  }

  /** Dropping the deliveries keeps the counts of creations and NoMores. */
  lemma {:induction false} SignalsCounts(t: seq<Signal>)
    ensures CreatedCount(Signals(t)) == CreatedCount(t)
    ensures NoMoreCount(Signals(t)) == NoMoreCount(t)
  {
    if t != [] {
      var init := t[..|t| - 1];
      SignalsCounts(init);
      var e := t[|t| - 1];
      if !e.Delivered? {
        var s := Signals(init) + [e];
        assert s[..|s| - 1] == Signals(init);
        assert CreatedCount(s) == CreatedCount(Signals(init)) + (if e.Created? then 1 else 0);
        assert NoMoreCount(s) == NoMoreCount(Signals(init)) + (if e.NoMore? then 1 else 0);
      } else {
        assert Signals(t) == Signals(init) + [];
        assert Signals(init) + [] == Signals(init);
      }
    }
  }

  /** The announcements of a prefix are a prefix of the announcements. */
  lemma {:induction false} SignalsPrefix(t: seq<Signal>, k: nat)
    requires k <= |t|
    ensures Signals(t[..k]) <= Signals(t)
    decreases |t| - k
  {
    if k < |t| {
      var init := t[..|t| - 1];
      SignalsPrefix(init, k);
      assert init[..k] == t[..k];
      assert Signals(init) <= Signals(t);
    } else {
      assert t[..k] == t;
    }
  }

  /** A dispatch of `n` sites announces `n` creations and one NoMore. */
  lemma {:induction false} AnnouncedCounts(n: nat)
    ensures CreatedCount(Announced(n)) == n
    ensures NoMoreCount(Announced(n)) == 1
  {
    CreationsCounts(n);
    assert Announced(n)[..|Announced(n)| - 1] == Creations(n);
  }

  lemma {:induction false} CreationsCounts(n: nat)
    ensures CreatedCount(Creations(n)) == n
    ensures NoMoreCount(Creations(n)) == 0
  {
    if n > 0 {
      CreationsCounts(n - 1);
      assert Creations(n)[..n - 1] == Creations(n - 1);
    }
  }

  /** A trace with a NoMore has one at some position. */
  lemma {:induction false} NoMoreAt(t: seq<Signal>) returns (i: nat)
    requires NoMoreCount(t) > 0
    ensures i < |t| && t[i] == NoMore
  {
    if t[|t| - 1] == NoMore {
      i := |t| - 1;
    } else {
      i := NoMoreAt(t[..|t| - 1]);
    }
  }

  /** Once its NoMore has been received, every creation of a dispatch has been received. */
  lemma PrefixWithNoMore(p: seq<Signal>, n: nat)
    requires p <= Announced(n) && NoMoreCount(p) > 0
    ensures p == Announced(n)
  {
    var i := NoMoreAt(p);
    assert Announced(n)[i] == NoMore;
  }

  /**
   * In a schedule, from the moment NoMore is received, all `n` creations have been
   * received, and one delivery is still to come for every message still to come.
   */
  lemma AfterNoMore(t: seq<Signal>, scored: seq<Site>, k: nat)
    requires Schedule(t, Announced(|scored|), scored)
    requires k <= |t| && NoMoreCount(t[..k]) > 0
    ensures CreatedCount(t[..k]) == |scored|
    ensures |DeliveredSites(t[..k])| + (|t| - k) == |scored|
  {
    var n := |scored|;
    SignalsPrefix(t, k);
    SignalsCounts(t[..k]);
    PrefixWithNoMore(Signals(t[..k]), n);
    SignalsCounts(t);
    AnnouncedCounts(n);
    Partition(t);
    Partition(t[..k]);
    assert |multiset(DeliveredSites(t))| == |multiset(scored)|;
  }

  /** On a schedule of a dispatch, the accumulator does not return before the last message. */
  lemma QuietBeforeLast(t: seq<Signal>, scored: seq<Site>)
    requires Schedule(t, Announced(|scored|), scored)
    ensures t != [] && QuietUntil(t, |t| - 1)
  {
    SignalsCounts(t);
    AnnouncedCounts(|scored|);
    Partition(t);
    forall j | 1 <= j < |t|
      ensures !ReturnsOn(Fold(t[..j]), t[j - 1])
    {
      FoldCounts(t[..j]);
      if NoMoreCount(t[..j]) > 0 {
        AfterNoMore(t, scored, j);
      }
    }
  }

  /** Until the accumulator returns, every prefix of the messages leaves it waiting. */
  lemma WaitsWhileQuiet(t: seq<Signal>, k: nat)
    requires k <= |t| && QuietUntil(t, k)
    ensures Accumulate(t[..k]).None?
  {
    var p := t[..k];
    forall j | 1 <= j <= k
      ensures !ReturnsOn(Fold(p[..j]), p[j - 1])
    {
      assert p[..j] == t[..j];
    }
    RunFold(p, k);
    assert p[..k] == p && p[k..] == [];
  }

  /**
   * On a schedule of a dispatch, the accumulator takes every message: it returns
   * exactly on the last one, and not before, with one score per delivery in the
   * order the deliveries were received.
   */
  lemma AccumulatorCompletes(t: seq<Signal>, scored: seq<Site>)
    requires Schedule(t, Announced(|scored|), scored)
    ensures Accumulate(t) == Some(ScoresOf(DeliveredSites(t)))
    ensures |DeliveredSites(t)| == |scored|
    ensures forall k :: 0 <= k < |t| ==> Accumulate(t[..k]).None?
  {
    var n := |scored|;
    assert |multiset(DeliveredSites(t))| == |multiset(scored)|;
    QuietBeforeLast(t, scored);
    SignalsCounts(t);
    AnnouncedCounts(n);
    RunFold(t, |t| - 1);
    assert t[..|t|] == t;
    assert t[|t| - 1..] == [t[|t| - 1]];
    FoldCounts(t);
    assert t[|t| - 1] != Created;
    forall k | 0 <= k < |t|
      ensures Accumulate(t[..k]).None?
    {
      WaitsWhileQuiet(t, k);
    }
  }

  /**
   * A dispatch of no sites: the only schedule is the single NoMore, on which the
   * accumulator returns the empty results at once.
   */
  lemma NoScorersReturnsEmpty(t: seq<Signal>)
    requires Schedule(t, Announced(0), [])
    ensures t == [NoMore] && Accumulate(t) == Some([])
  {
    AccumulatorCompletes(t, []);
    Partition(t);
    SignalsCounts(t);
    AnnouncedCounts(0);
    assert |t| == 1;
    assert Signals(t) == [NoMore];
    assert t == t[..0] + [t[0]];
  }

  /**
   * The pipeline end to end: whatever order the accumulator receives the dispatcher's
   * announcements and the scorers' deliveries in, it returns one score of 0 per site.
   */
  lemma PipelineDeliversAllScores(sites: seq<Site>, sent: seq<Signal>, scored: seq<Site>, t: seq<Signal>)
    requires sent == Announced(|sites|)
    requires |scored| == |sites| && forall i :: 0 <= i < |sites| ==> scored[i] == Score(sites[i])
    requires Schedule(t, sent, scored)
    ensures Accumulate(t) == Some(seq(|sites|, _ => 0))
  {
    AccumulatorCompletes(t, scored);
    var delivered := DeliveredSites(t);
    forall i | 0 <= i < |delivered|
      ensures delivered[i].score == 0
    {
      assert delivered[i] in multiset(delivered);
      assert delivered[i] in multiset(scored);
    }
    assert ScoresOf(delivered) == seq(|sites|, _ => 0);
  }
}
