/** `get_bugzillas`: for every open case with a bug, fetch the bugs linked to
    the case; then report, in order, every linked bug whose whiteboard still
    needs the tag. */
module Resolver {
  import opened Wrappers
  import opened Cases
  import opened Tracker
  import opened TagCheck

  /** The per-case bug-link endpoint: case number to the bug numbers it lists.
      A case missing here is one whose request fails. */
  type Links = map<string, seq<string>>

  /** One entry of the intermediate dict from case number to linked bug numbers. */
  datatype LinkedCase = LinkedCase(caseNumber: string, bugRefs: seq<string>)

  /** The status the script treats as done. */
  const ClosedStatus: string := "Closed"

  /** A case gets a link request only when it has a bug and is not closed. */
  predicate Eligible(e: CaseEntry) {
    e.bug.Some? && e.status != ClosedStatus
  }

  /** The cases that get a link request, in table order. */
  function EligibleCases(t: CaseTable): (r: CaseTable)
    ensures forall e :: e in r <==> e in t && Eligible(e)
    ensures |r| <= |t|
  {
    if |t| == 0 then []
    else (if Eligible(t[0]) then [t[0]] else []) + EligibleCases(t[1..])
  }

  /** A single case is kept exactly when it is eligible. */
  lemma EligibleCasesOne(e: CaseEntry)
    ensures EligibleCases([e]) == if Eligible(e) then [e] else []
  {
    assert [e][1..] == [];
  }

  /** Filtering two runs of the table one after the other is filtering their
      concatenation: the kept cases stay in table order, each once. */
  lemma {:induction false} EligibleCasesAppend(a: CaseTable, b: CaseTable)
    ensures EligibleCases(a + b) == EligibleCases(a) + EligibleCases(b)
    decreases |a|
  {
    if |a| == 0 {
      assert a + b == b;
    } else {
      assert (a + b)[0] == a[0] && (a + b)[1..] == a[1..] + b;
      EligibleCasesAppend(a[1..], b);
      var head := if Eligible(a[0]) then [a[0]] else [];
      assert head + (EligibleCases(a[1..]) + EligibleCases(b))
          == (head + EligibleCases(a[1..])) + EligibleCases(b);
    }
  }

  /** Pairs each case with the bug numbers its link request returns. */
  function LinkRecords(es: CaseTable, links: Links): (r: seq<LinkedCase>)
    requires forall e :: e in es ==> e.caseNumber in links
    ensures |r| == |es|
    ensures forall i :: 0 <= i < |es| ==> r[i] == LinkedCase(es[i].caseNumber, links[es[i].caseNumber])
  {
    if |es| == 0 then [] else [LinkedCase(es[0].caseNumber, links[es[0].caseNumber])] + LinkRecords(es[1..], links)
  }

  /** The first loop: one link request per eligible case, in table order. The
      run stops at the first request that fails. */
  function FetchLinks(t: CaseTable, links: Links): (r: Result<seq<LinkedCase>, Fault>)
    ensures r.Success? <==> forall e :: e in t && Eligible(e) ==> e.caseNumber in links
    ensures r.Failure? ==>
      exists e :: e in t && Eligible(e) && e.caseNumber !in links && r.error == LinksUnavailable(e.caseNumber)
    ensures r.Success? ==> r.value == LinkRecords(EligibleCases(t), links)
  {
    if |t| == 0 then Success([])
    else
      assert forall e :: e in t <==> e == t[0] || e in t[1..];
      if !Eligible(t[0]) then FetchLinks(t[1..], links)
      else if t[0].caseNumber !in links then Failure(LinksUnavailable(t[0].caseNumber))
      else
        match FetchLinks(t[1..], links)
        case Failure(f) => Failure(f)
        case Success(rest) => Success([LinkedCase(t[0].caseNumber, links[t[0].caseNumber])] + rest)
  }

  /** No request is made for a case that has no bug or is closed: what the
      link endpoint would answer for such a case, or whether it would answer
      at all, has no effect on the outcome. */
  lemma {:induction false} FetchLinksIgnoresIneligible(t: CaseTable, links: Links, links': Links)
    requires forall e :: e in t && Eligible(e) ==>
      && (e.caseNumber in links <==> e.caseNumber in links')
      && (e.caseNumber in links ==> links[e.caseNumber] == links'[e.caseNumber])
    ensures FetchLinks(t, links) == FetchLinks(t, links')
    decreases |t|
  {
    if |t| != 0 {
      assert forall e :: e in t[1..] ==> e in t;
      FetchLinksIgnoresIneligible(t[1..], links, links');
    }
  }

  /** The bug numbers of all fetched cases, case by case and in link order
      within a case. */
  function AllRefs(linked: seq<LinkedCase>): seq<string>
  {
    if |linked| == 0 then [] else linked[0].bugRefs + AllRefs(linked[1..])
  }

  /** A bug number is visited exactly when some fetched case lists it. */
  lemma {:induction false} AllRefsMembers(linked: seq<LinkedCase>, ref: string)
    ensures ref in AllRefs(linked) <==> exists c :: c in linked && ref in c.bugRefs
    decreases |linked|
  {
    if |linked| != 0 {
      AllRefsMembers(linked[1..], ref);
      if ref in AllRefs(linked[1..]) {
        var c :| c in linked[1..] && ref in c.bugRefs;
        assert c in linked;
      }
      assert forall c :: c in linked <==> c == linked[0] || c in linked[1..];
    }
  }

  /** One fetched case contributes its bug numbers in link order. */
  lemma AllRefsOne(c: LinkedCase)
    ensures AllRefs([c]) == c.bugRefs
  {
    assert [c][1..] == [];
    assert c.bugRefs + [] == c.bugRefs;
  }

  /** The nested loop over two runs of cases visits the first run's numbers
      and then the second's: order and repetitions are those of the lists. */
  lemma {:induction false} AllRefsAppend(a: seq<LinkedCase>, b: seq<LinkedCase>)
    ensures AllRefs(a + b) == AllRefs(a) + AllRefs(b)
    decreases |a|
  {
    if |a| == 0 {
      assert a + b == b;
      assert AllRefs(a) + AllRefs(b) == AllRefs(b);
    } else {
      AllRefsAppend(a[1..], b);
      AllRefsCons(a[0], a[1..] + b);
      assert a + b == [a[0]] + (a[1..] + b);
      var head, tail, rb := a[0].bugRefs, AllRefs(a[1..]), AllRefs(b);
      assert head + (tail + rb) == (head + tail) + rb;
    }
  }

  /** Unfolding `AllRefs` at a case put in front. */
  lemma AllRefsCons(c: LinkedCase, rest: seq<LinkedCase>)
    ensures AllRefs([c] + rest) == c.bugRefs + AllRefs(rest)
  {
    assert ([c] + rest)[1..] == rest;
  }

  /** How many of `refs` `getbug` resolves to the bug `id`. */
  function Hits(refs: seq<string>, dir: Directory, id: BugId): nat
  {
    if |refs| == 0 then 0
    else (if refs[0] in dir && dir[refs[0]] == id then 1 else 0) + Hits(refs[1..], dir, id)
  }

  /** Two collections one after the other: the first failure, or both lists
      in order. */
  function Then(ra: Result<seq<BugId>, Fault>, rb: Result<seq<BugId>, Fault>): Result<seq<BugId>, Fault>
  {
    match ra
    case Failure(f) => Failure(f)
    case Success(x) =>
      match rb
      case Failure(f) => Failure(f)
      case Success(y) => Success(x + y)
  }

  /** One step of the second loop: a bug the tracker cannot return ends the
      collection; otherwise its id is reported ahead of the rest when its
      whiteboard needs the tag. */
  function Step(g: Result<Bug, Fault>, rest: Result<seq<BugId>, Fault>): Result<seq<BugId>, Fault>
  {
    match g
    case Failure(f) => Failure(f)
    case Success(bug) => Then(Success(if NeedsTag(bug.whiteboard) then [bug.id] else []), rest)
  }

  /** Sequencing a step before two collections is sequencing the step before
      the first and then the second. */
  lemma StepThen(g: Result<Bug, Fault>, ra: Result<seq<BugId>, Fault>, rb: Result<seq<BugId>, Fault>)
    ensures Step(g, Then(ra, rb)) == Then(Step(g, ra), rb)
  {
    if g.Success? && ra.Success? && rb.Success? {
      var head := if NeedsTag(g.value.whiteboard) then [g.value.id] else [];
      assert head + (ra.value + rb.value) == (head + ra.value) + rb.value;
    }
  }

  /** The inner loop over a run of bug numbers: fetch each bug and keep the id
      of every one whose whiteboard still needs the tag. The run stops at the
      first bug the tracker cannot return. */
  function CollectRefs(refs: seq<string>, dir: Directory, wbs: Whiteboards): (r: Result<seq<BugId>, Fault>)
    ensures r.Success? <==> forall ref :: ref in refs ==> Resolves(ref, dir, wbs)
    ensures r.Success? ==> forall id :: id in r.value ==> id in wbs && NeedsTag(wbs[id])
  {
    if |refs| == 0 then Success([])
    else
      assert forall ref :: ref in refs <==> ref == refs[0] || ref in refs[1..];
      Step(GetBug(refs[0], dir, wbs), CollectRefs(refs[1..], dir, wbs))
  }

  /** A failed collection names a bug number of the run that the tracker
      could not return. */
  lemma {:induction false} CollectRefsFailure(refs: seq<string>, dir: Directory, wbs: Whiteboards)
    requires CollectRefs(refs, dir, wbs).Failure?
    ensures exists ref :: ref in refs && !Resolves(ref, dir, wbs)
                          && CollectRefs(refs, dir, wbs).error == BugUnavailable(ref)
    decreases |refs|
  {
    if GetBug(refs[0], dir, wbs).Success? {
      CollectRefsFailure(refs[1..], dir, wbs);
      var ref :| ref in refs[1..] && !Resolves(ref, dir, wbs)
                 && CollectRefs(refs[1..], dir, wbs).error == BugUnavailable(ref);
      assert ref in refs;
    }
  }

  /** Duplicates are kept: an id that needs the tag is reported once for every
      bug number that resolves to it, and an id that does not is never reported. */
  lemma {:induction false} CollectRefsCounts(refs: seq<string>, dir: Directory, wbs: Whiteboards, id: BugId)
    requires CollectRefs(refs, dir, wbs).Success?
    ensures multiset(CollectRefs(refs, dir, wbs).value)[id] ==
              if id in wbs && NeedsTag(wbs[id]) then Hits(refs, dir, id) else 0
    decreases |refs|
  {
    if |refs| != 0 {
      assert forall ref :: ref in refs[1..] ==> ref in refs;
      CollectRefsCounts(refs[1..], dir, wbs, id);
      var rest := CollectRefs(refs[1..], dir, wbs).value;
      var bug := GetBug(refs[0], dir, wbs).value;
      if NeedsTag(bug.whiteboard) {
        assert multiset([bug.id] + rest) == multiset([bug.id]) + multiset(rest);
      }
    }
  }

  /** A single bug number is reported exactly when its bug needs the tag. */
  lemma CollectOne(ref: string, dir: Directory, wbs: Whiteboards)
    requires Resolves(ref, dir, wbs)
    ensures CollectRefs([ref], dir, wbs) == Success(if NeedsTag(wbs[dir[ref]]) then [dir[ref]] else [])
  {
    assert [ref][1..] == [];
    var none: seq<BugId> := [];
    assert [dir[ref]] + none == [dir[ref]] && none + none == none;
  }

  /** Collecting over two runs of bug numbers one after the other is
      collecting over their concatenation: the ids come out in the same order,
      and the first failure is the same. */
  lemma {:induction false} CollectRefsAppend(a: seq<string>, b: seq<string>, dir: Directory, wbs: Whiteboards)
    ensures CollectRefs(a + b, dir, wbs) == Then(CollectRefs(a, dir, wbs), CollectRefs(b, dir, wbs))
    decreases |a|
  {
    if |a| == 0 {
      assert a + b == b;
      var rb := CollectRefs(b, dir, wbs);
      if rb.Success? {
        assert [] + rb.value == rb.value;
      }
    } else {
      assert (a + b)[0] == a[0] && (a + b)[1..] == a[1..] + b;
      CollectRefsAppend(a[1..], b, dir, wbs);
      StepThen(GetBug(a[0], dir, wbs), CollectRefs(a[1..], dir, wbs), CollectRefs(b, dir, wbs));
    }
  }

  /** The second loop as written: over the fetched cases in order, and within
      a case over its bug numbers in order. It is one pass over all the bug
      numbers, case by case; duplicates are kept. */
  function CollectUntagged(linked: seq<LinkedCase>, dir: Directory, wbs: Whiteboards): (r: Result<seq<BugId>, Fault>)
    ensures r == CollectRefs(AllRefs(linked), dir, wbs)
  {
    if |linked| == 0 then Success([])
    else
      CollectRefsAppend(linked[0].bugRefs, AllRefs(linked[1..]), dir, wbs);
      Then(CollectRefs(linked[0].bugRefs, dir, wbs), CollectUntagged(linked[1..], dir, wbs))
  }

  /** The bug numbers whose bugs get fetched: those listed on the eligible
      cases, case by case. */
  function LookedUp(t: CaseTable, links: Links): seq<string>
    requires FetchLinks(t, links).Success?
  {
    AllRefs(FetchLinks(t, links).value)
  }

  /** `get_bugzillas` as a whole: the link requests first, then the bug
      lookups. A failed link request ends the run before any bug is looked up. */
  function GetBugzillas(t: CaseTable, links: Links, dir: Directory, wbs: Whiteboards): (r: Result<seq<BugId>, Fault>)
    ensures FetchLinks(t, links).Failure? ==> r == Failure(FetchLinks(t, links).error)
    ensures FetchLinks(t, links).Success? ==>
      (r.Success? <==> forall ref :: ref in LookedUp(t, links) ==> Resolves(ref, dir, wbs))
    ensures r.Success? ==> forall id :: id in r.value ==> id in wbs && NeedsTag(wbs[id])
  {
    match FetchLinks(t, links)
    case Failure(f) => Failure(f)
    case Success(linked) => CollectUntagged(linked, dir, wbs)
  }

  /** The returned list holds every untagged bug once per time it is listed
      on an eligible case, and nothing else. */
  lemma GetBugzillasCounts(t: CaseTable, links: Links, dir: Directory, wbs: Whiteboards, id: BugId)
    requires GetBugzillas(t, links, dir, wbs).Success?
    ensures FetchLinks(t, links).Success?
    ensures multiset(GetBugzillas(t, links, dir, wbs).value)[id] ==
              if id in wbs && NeedsTag(wbs[id]) then Hits(LookedUp(t, links), dir, id) else 0
  {
    CollectRefsCounts(LookedUp(t, links), dir, wbs, id);
  }
}
