/**
 * Model discovery: the background task that asks the local inference server
 * for its model list, up to ten times, and publishes the first model whose
 * name contains the marker "translategemma", or a fixed fallback name once
 * every attempt has come back without one.
 *
 * The server is abstracted as the sequence of answers it gives to the
 * successive list calls; waits are counted, not timed.
 */
module Discovery {
  import opened Wrappers

  /** Number of list attempts before falling back. */
  const MaxAttempts: nat := 10
  /** Seconds waited after each unsuccessful attempt (only counted here). */
  const RetryDelaySeconds: nat := 2
  /** The case-sensitive substring that identifies a translation model. */
  const Marker: string := "translategemma"
  /** The name published when no attempt finds a matching model. */
  const Fallback: string := "translategemma:4b"

  /** The answer of the server to one list call. */
  datatype ListOutcome = ListFailed | Listed(names: seq<string>)

  /** What one run of discovery does: the name it publishes, how many list
      calls it makes and how many retry waits it sits through. */
  datatype Run = Run(model: string, attempts: nat, waits: nat)

  /** Substring test, as the standard library's strings.Contains. */
  predicate Contains(s: string, sub: string)
    decreases |s|
  {
    (|sub| <= |s| && s[..|sub|] == sub) || (|s| > 0 && Contains(s[1..], sub))
  }

  /** `sub` occurs in `s` starting at position `i`. */
  predicate OccursAt(s: string, sub: string, i: int)
  {
    0 <= i && i + |sub| <= |s| && s[i..i + |sub|] == sub
  }

  /** Contains holds exactly when `sub` occurs at some position of `s`. */
  lemma {:induction false} ContainsAt(s: string, sub: string)
    ensures Contains(s, sub) <==> exists i :: OccursAt(s, sub, i)
  {
    if |s| > 0 {
      ContainsAt(s[1..], sub);
      if Contains(s, sub) {
        if |sub| <= |s| && s[..|sub|] == sub {
          assert OccursAt(s, sub, 0);
        } else {
          var i :| OccursAt(s[1..], sub, i);
          assert s[i + 1..i + 1 + |sub|] == s[1..][i..i + |sub|];
          assert OccursAt(s, sub, i + 1);
        }
      } else {
        forall i | OccursAt(s, sub, i)
          ensures false
        {
          if i > 0 {
            assert s[1..][i - 1..i - 1 + |sub|] == s[i..i + |sub|];
            assert OccursAt(s[1..], sub, i - 1);
          }
        }
      }
    } else if |sub| == 0 {
      assert OccursAt(s, sub, 0);
    }
  }

  /** No name before position `j` contains the marker. */
  predicate NoMatchBefore(names: seq<string>, j: int)
    requires 0 <= j <= |names|
  {
    forall k :: 0 <= k < j ==> !Contains(names[k], Marker)
  }

  /** The first name of a listing that contains the marker, unchanged. */
  function FirstMatch(names: seq<string>): (r: Option<string>)
    ensures r.None? <==> NoMatchBefore(names, |names|)
    ensures r.Some? ==> r.value in names && Contains(r.value, Marker)
    ensures forall j :: 0 <= j < |names| && Contains(names[j], Marker) && NoMatchBefore(names, j) ==> r == Some(names[j])
  {
    if names == [] then None
    else if Contains(names[0], Marker) then Some(names[0])
    else
      var r := FirstMatch(names[1..]);
      assert forall j :: 1 <= j < |names| ==> names[1..][j - 1] == names[j];
      assert forall j :: 1 <= j <= |names| ==> (NoMatchBefore(names, j) <==> NoMatchBefore(names[1..], j - 1));
      r
  }

  /** What a single attempt yields: a matching name, or nothing (the list
      call failed, or no name in the listing contains the marker). */
  function AttemptMatch(outcome: ListOutcome): Option<string>
  {
    match outcome
    case ListFailed => None
    case Listed(names) => FirstMatch(names)
  }

  /** Every attempt from `from` up to (not including) `to` yields nothing. */
  predicate NoMatchBetween(outcomes: seq<ListOutcome>, from: nat, to: nat)
    requires from <= to <= |outcomes|
  {
    forall k :: from <= k < to ==> AttemptMatch(outcomes[k]).None?
  }

  /** The run stopped at attempt number `d.attempts` because it matched,
      after every attempt from `i` on before it yielded nothing. */
  predicate StoppedOnMatch(outcomes: seq<ListOutcome>, i: nat, d: Run)
    requires MaxAttempts <= |outcomes|
  {
    && i < d.attempts <= MaxAttempts
    && AttemptMatch(outcomes[d.attempts - 1]) == Some(d.model)
    && d.waits == d.attempts - 1
    && NoMatchBetween(outcomes, i, d.attempts - 1)
  }

  /** The run used up all attempts from `i` on and fell back. */
  predicate FellBack(outcomes: seq<ListOutcome>, i: nat, d: Run)
    requires i <= MaxAttempts <= |outcomes|
  {
    d == Run(Fallback, MaxAttempts, MaxAttempts) && NoMatchBetween(outcomes, i, MaxAttempts)
  }

  /** Discovery from attempt index `i` on. */
  function DiscoverFrom(outcomes: seq<ListOutcome>, i: nat): (d: Run)
    requires i <= MaxAttempts <= |outcomes|
    ensures StoppedOnMatch(outcomes, i, d) || FellBack(outcomes, i, d)
    decreases MaxAttempts - i
  {
    if i == MaxAttempts then Run(Fallback, MaxAttempts, MaxAttempts)
    else
      match AttemptMatch(outcomes[i])
      case Some(name) => Run(name, i + 1, i)
      case None => DiscoverFrom(outcomes, i + 1)
  }

  /** The whole discovery run: at most ten list calls, and the name it
      publishes is never empty and always carries the marker. */
  function Discover(outcomes: seq<ListOutcome>): (d: Run)
    requires MaxAttempts <= |outcomes|
    ensures 1 <= d.attempts <= MaxAttempts
    ensures d.model != "" && Contains(d.model, Marker)
    ensures StoppedOnMatch(outcomes, 0, d) || FellBack(outcomes, 0, d)
  {
    DiscoverFrom(outcomes, 0)
  }

  /** The first attempt that yields a match ends discovery, and its name is
      published exactly as listed. */
  lemma DiscoverStopsAtFirstMatch(outcomes: seq<ListOutcome>, k: nat)
    requires k < MaxAttempts <= |outcomes|
    requires NoMatchBetween(outcomes, 0, k)
    requires AttemptMatch(outcomes[k]).Some?
    ensures Discover(outcomes) == Run(AttemptMatch(outcomes[k]).value, k + 1, k)
  {
  }

  /** When no attempt yields a match, all ten attempts are made, each ends
      with a wait (the last one included), and the fallback is published. */
  lemma DiscoverFallsBack(outcomes: seq<ListOutcome>)
    requires MaxAttempts <= |outcomes|
    requires NoMatchBetween(outcomes, 0, MaxAttempts)
    ensures Discover(outcomes) == Run(Fallback, MaxAttempts, MaxAttempts)
    ensures Discover(outcomes).waits * RetryDelaySeconds == 20
  {
  }

  /** The process-wide slot holding the model name; empty until discovery
      publishes. */
  class ModelRegistry {
    var detectedModel: string

    constructor ()
      ensures detectedModel == ""
    {
      detectedModel := "";
    }

    /** Requests can be served once a name has been published. */
    predicate Ready()
      reads this
    {
      detectedModel != ""
    }

    /** The retry loop: each attempt scans the listing in order and returns
        as soon as a name contains the marker; failed or fruitless attempts
        are followed by a wait. The counts of attempts and waits are ghost:
        they record what the loop does, the source returns nothing. */
    method DetectModel(outcomes: seq<ListOutcome>) returns (ghost attempts: nat, ghost waits: nat)
      requires MaxAttempts <= |outcomes|
      modifies this
      ensures Run(detectedModel, attempts, waits) == Discover(outcomes)
      ensures Ready()
    {
      attempts, waits := 0, 0;
      for i := 0 to MaxAttempts
        invariant attempts == waits == i
        invariant DiscoverFrom(outcomes, i) == Discover(outcomes)
      {
        attempts := attempts + 1;
        if outcomes[i].Listed? {
          var names := outcomes[i].names;
          for j := 0 to |names|
            invariant NoMatchBefore(names, j)
          {
            if Contains(names[j], Marker) {
              assert AttemptMatch(outcomes[i]) == Some(names[j]);
              detectedModel := names[j];
              return;
            }
          }
          assert NoMatchBefore(names, |names|);
        }
        assert AttemptMatch(outcomes[i]).None?;
        assert DiscoverFrom(outcomes, i) == DiscoverFrom(outcomes, i + 1);
        waits := waits + 1;
      }
      detectedModel := Fallback;
    }
  }
}
