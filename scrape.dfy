/** The specification of the scrape-accumulate loop of `Index.Process`.

    The network is replaced by an oracle: each candidate post link comes with
    the outcome of the requests made for it (phone-number extraction, then the
    blacklist check). `Run` gives the page's state after the loop has handled
    the candidates in order; the lemmas below state what the loop promises
    about that state. */
module Scrape {
  import opened Entities

  /** What the requests for one candidate produced. A 404 or another request
      failure ends the candidate the same way whether it came from the
      phone-number request or from the blacklist check. */
  datatype Outcome =
    | NotFound                             // HttpRequestException with status 404
    | OtherFailure                         // any other HttpRequestException
    | Fetched(phone: string, allowed: bool) // extracted number and blacklist verdict (true = not blacklisted)

  datatype Candidate = Candidate(link: PostLink, outcome: Outcome)

  /** The part of the page the loop changes: the result list, the progress
      (as a count of 1/n steps) and whether the loop stopped on an error. */
  datatype RunState = RunState(entries: seq<Entry>, steps: nat, aborted: bool)

  /** The entry the loop appends for a candidate with this phone number. */
  function NewEntry(directory: Option<seq<Contact>>, link: PostLink, phone: string): Entry
  {
    Entry(PostLink(link.uri, link.caption), Contact(LookupName(directory, phone), phone))
  }

  /** One pass of the loop body on a state that has not aborted. */
  function Step(directory: Option<seq<Contact>>, s: RunState, c: Candidate): RunState
  {
    match c.outcome
    case NotFound => s.(steps := s.steps + 1)
    case OtherFailure => RunState(s.entries, 0, true)
    case Fetched(phone, allowed) =>
      if phone == "" then s.(steps := s.steps + 1)
      else if allowed && !HasPhone(s.entries, phone) then
        s.(entries := s.entries + [NewEntry(directory, c.link, phone)], steps := s.steps + 1)
      else s.(steps := s.steps + 1)
  }

  /** The state after the loop has run over `cands`, starting from an empty
      list and zero progress; once aborted, later candidates are not looked at. */
  function Run(directory: Option<seq<Contact>>, cands: seq<Candidate>): RunState
    decreases |cands|
  {
    if cands == [] then RunState([], 0, false)
    else
      var s := Run(directory, cands[..|cands| - 1]);
      if s.aborted then s else Step(directory, s, cands[|cands| - 1])
  }

  /** The index of the first candidate whose requests failed with an error
      other than 404, or |cands| when there is none. */
  function FirstFailure(cands: seq<Candidate>): (k: nat)
    ensures k <= |cands|
    ensures forall i :: 0 <= i < k ==> !cands[i].outcome.OtherFailure?
    ensures k < |cands| ==> cands[k].outcome.OtherFailure?
  {
    if cands == [] then 0
    else if cands[0].outcome.OtherFailure? then 0
    else 1 + FirstFailure(cands[1..])
  }

  /** An allowed, non-empty phone number of a candidate. */
  predicate Accepts(c: Candidate)
  {
    c.outcome.Fetched? && c.outcome.phone != "" && c.outcome.allowed
  }

  lemma PrefixOfPrefix<T>(s: seq<T>, i: nat, j: nat)
    requires i <= j <= |s|
    ensures s[..j][..i] == s[..i]
  {
  }

  /** Before the first non-404 failure, every handled candidate advances the
      progress by exactly one step, whatever became of it. */
  lemma {:induction false} RunProgress(directory: Option<seq<Contact>>, cands: seq<Candidate>, k: nat)
    requires k <= FirstFailure(cands)
    ensures !Run(directory, cands[..k]).aborted
    ensures Run(directory, cands[..k]).steps == k
  {
    if k > 0 {
      RunProgress(directory, cands, k - 1);
      PrefixOfPrefix(cands, k - 1, k);
    }
  }

  /** A run without a non-404 failure handles every candidate: the progress
      count equals the number of candidates (0 for an empty list). */
  lemma {:induction false} CleanRun(directory: Option<seq<Contact>>, cands: seq<Candidate>)
    requires forall i :: 0 <= i < |cands| ==> !cands[i].outcome.OtherFailure?
    ensures !Run(directory, cands).aborted
    ensures Run(directory, cands).steps == |cands|
  {
    RunProgress(directory, cands, |cands|);
    assert cands[..|cands|] == cands;
  }

  /** Once a prefix has aborted, the candidates after it change nothing. */
  lemma {:induction false} RunStopsAfterAbort(directory: Option<seq<Contact>>, cands: seq<Candidate>, j: nat)
    requires j <= |cands|
    requires Run(directory, cands[..j]).aborted
    ensures Run(directory, cands) == Run(directory, cands[..j])
    decreases |cands|
  {
    if j == |cands| {
      assert cands[..j] == cands;
    } else {
      var init := cands[..|cands| - 1];
      PrefixOfPrefix(cands, j, |cands| - 1);
      RunStopsAfterAbort(directory, init, j);
    }
  }

  /** A non-404 failure on candidate k resets the progress to 0, stops the
      loop there (nothing after k is looked at) and keeps the entries that
      the candidates before k appended. */
  lemma {:induction false} RunAbort(directory: Option<seq<Contact>>, cands: seq<Candidate>)
    requires FirstFailure(cands) < |cands|
    ensures var k := FirstFailure(cands);
      Run(directory, cands) == Run(directory, cands[..k + 1]) &&
      Run(directory, cands) == RunState(Run(directory, cands[..k]).entries, 0, true)
  {
    var k := FirstFailure(cands);
    RunProgress(directory, cands, k);
    PrefixOfPrefix(cands, k, k + 1);
    RunStopsAfterAbort(directory, cands, k + 1);
  }

  /** The loop reports an error exactly when some candidate failed with an
      error other than 404. */
  lemma {:induction false} RunAbortedIff(directory: Option<seq<Contact>>, cands: seq<Candidate>)
    ensures Run(directory, cands).aborted <==> exists i :: 0 <= i < |cands| && cands[i].outcome.OtherFailure?
  {
    if FirstFailure(cands) < |cands| {
      RunAbort(directory, cands);
    } else {
      CleanRun(directory, cands);
    }
  }

  /** The result list only grows: the list after i candidates is a prefix of
      the list after j >= i candidates. */
  lemma {:induction false} RunAppendOnly(directory: Option<seq<Contact>>, cands: seq<Candidate>, i: nat, j: nat)
    requires i <= j <= |cands|
    ensures Run(directory, cands[..i]).entries <= Run(directory, cands[..j]).entries
    decreases j
  {
    if i < j {
      RunAppendOnly(directory, cands, i, j - 1);
      PrefixOfPrefix(cands, j - 1, j);
    }
  }

  /** Whether the loop finished or aborted, no two entries share a phone
      number and no entry has an empty one. */
  lemma {:induction false} RunWellFormed(directory: Option<seq<Contact>>, cands: seq<Candidate>)
    ensures WellFormed(Run(directory, cands).entries)
    decreases |cands|
  {
    if cands != [] {
      RunWellFormed(directory, cands[..|cands| - 1]);
    }
  }

  /** Every entry comes from an accepted candidate handled before any abort,
      in candidate order: `origin[k]` is the candidate entry k was made from,
      and the entry copies that candidate's link and carries the directory
      name of its phone number. */
  lemma {:induction false} RunEntriesFromCandidates(directory: Option<seq<Contact>>, cands: seq<Candidate>)
    returns (origin: seq<nat>)
    ensures var es := Run(directory, cands).entries;
      |origin| == |es| &&
      (forall k :: 0 <= k < |origin| ==> origin[k] < FirstFailure(cands)) &&
      (forall k, l :: 0 <= k < l < |origin| ==> origin[k] < origin[l]) &&
      (forall k :: 0 <= k < |origin| ==>
         Accepts(cands[origin[k]]) &&
         es[k] == NewEntry(directory, cands[origin[k]].link, cands[origin[k]].outcome.phone))
    decreases |cands|
  {
    if cands == [] {
      origin := [];
    } else {
      var n := |cands| - 1;
      var init := cands[..n];
      var s := Run(directory, init);
      origin := RunEntriesFromCandidates(directory, init);
      assert forall k :: 0 <= k < |origin| ==> cands[origin[k]] == init[origin[k]];
      assert FirstFailure(init) <= FirstFailure(cands) by {
        FirstFailureOfPrefix(cands, n);
      }
      if !s.aborted && Step(directory, s, cands[n]).entries != s.entries {
        assert FirstFailure(init) == n by {
          RunAbortedIff(directory, init);
          FirstFailureOfPrefix(cands, n);
        }
        origin := origin + [n];
      }
    }
  }

  /** The first failure of a prefix is the first failure of the whole list,
      capped at the prefix's length. */
  lemma {:induction false} FirstFailureOfPrefix(cands: seq<Candidate>, n: nat)
    requires n <= |cands|
    ensures FirstFailure(cands[..n]) == if FirstFailure(cands) < n then FirstFailure(cands) else n
  {
    // Naming both calls brings their postconditions into the proof.
    var f, g := FirstFailure(cands), FirstFailure(cands[..n]);
    assert forall i :: 0 <= i < n ==> cands[..n][i] == cands[i];
  }

  /** Conversely, every accepted candidate handled before any abort has its
      phone number in the result list (added then, or already present). */
  lemma {:induction false} RunAcceptedArePresent(directory: Option<seq<Contact>>, cands: seq<Candidate>, i: nat)
    requires i < FirstFailure(cands)
    requires Accepts(cands[i])
    ensures HasPhone(Run(directory, cands).entries, cands[i].outcome.phone)
  {
    var phone := cands[i].outcome.phone;
    var f := FirstFailure(cands);
    RunProgress(directory, cands, i);
    PrefixOfPrefix(cands, i, i + 1);
    var after := Run(directory, cands[..i + 1]).entries;
    assert HasPhone(after, phone) by {
      var before := Run(directory, cands[..i]).entries;
      if !HasPhone(before, phone) {
        assert after[|before|].contact.phone == phone;
      }
    }
    RunAppendOnly(directory, cands, i + 1, f);
    var final := Run(directory, cands[..f]).entries;
    assert final[..|after|] == after;
    assert HasPhone(final, phone) by {
      var m :| 0 <= m < |after| && after[m].contact.phone == phone;
      assert final[m] == after[m];
    }
    if f < |cands| {
      RunAbort(directory, cands);
    } else {
      assert cands[..f] == cands;
    }
  }
}
