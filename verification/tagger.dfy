/** `tag_bugzillas`: for each listed id in turn, re-read the bug and write back
    its whiteboard with "Telco " in front. */
module Tagger {
  import opened Wrappers
  import opened Tracker
  import opened TagCheck

  /** The tracker after a batch, and the id the batch stopped at when `getbug`
      failed on it. Updates made before that id stay made. */
  datatype TagRun = TagRun(wbs: Whiteboards, aborted: Option<BugId>)

  /** `n` copies of "Telco ". */
  function Prefixes(n: nat): (r: string)
    ensures |r| == n * |TagSpace|
  {
    if n == 0 then [] else TagSpace + Prefixes(n - 1)
  }

  /** The batch. Each step reads the whiteboard as the previous steps left it,
      so an id listed twice is prefixed twice. */
  function TagBugzillas(wbs: Whiteboards, ids: seq<BugId>): (r: TagRun)
    ensures r.wbs.Keys == wbs.Keys
    ensures r.aborted.None? <==> forall id :: id in ids ==> id in wbs
    ensures r.aborted.Some? ==> r.aborted.value in ids && r.aborted.value !in wbs
    decreases |ids|
  {
    if |ids| == 0 then TagRun(wbs, None)
    else
      assert forall id :: id in ids <==> id == ids[0] || id in ids[1..];
      if ids[0] !in wbs then TagRun(wbs, Some(ids[0]))
      else TagBugzillas(wbs[ids[0] := Tagged(wbs[ids[0]])], ids[1..])
  }

  /** One more "Telco " can go on either end of a run of them. */
  lemma {:induction false} PrefixesSwap(n: nat)
    ensures Prefixes(n) + TagSpace == TagSpace + Prefixes(n)
  {
    if n != 0 {
      PrefixesSwap(n - 1);
      assert Prefixes(n) + TagSpace == TagSpace + (Prefixes(n - 1) + TagSpace);
    }
  }

  /** Tagging a whiteboard that already carries `n` prefixes gives `n + 1`. */
  lemma PrefixesStep(n: nat, w: string)
    ensures Prefixes(n) + Tagged(w) == Prefixes(n + 1) + w
  {
    PrefixesSwap(n);
    assert Prefixes(n) + (TagSpace + w) == (Prefixes(n) + TagSpace) + w;
  }

  /** A completed batch gives every bug one "Telco " per occurrence of its id
      in the list and leaves every other bug as it was. */
  lemma {:induction false} TagBugzillasEffect(wbs: Whiteboards, ids: seq<BugId>, id: BugId)
    requires TagBugzillas(wbs, ids).aborted.None?
    requires id in wbs
    ensures TagBugzillas(wbs, ids).wbs[id] == Prefixes(multiset(ids)[id]) + wbs[id]
    decreases |ids|
  {
    if |ids| != 0 {
      var x := ids[0];
      assert x in wbs;
      var wbs' := wbs[x := Tagged(wbs[x])];
      assert TagBugzillas(wbs, ids) == TagBugzillas(wbs', ids[1..]);
      TagBugzillasEffect(wbs', ids[1..], id);
      assert ids == [x] + ids[1..];
      assert multiset(ids) == multiset{x} + multiset(ids[1..]);
      if id == x {
        PrefixesStep(multiset(ids[1..])[id], wbs[x]);
      }
    }
  }

  /** A whiteboard with at least one "Telco " in front is recognised as tagged. */
  lemma PrefixedIsTagged(n: nat, w: string)
    requires n > 0
    ensures !NeedsTag(Prefixes(n) + w)
  {
    var s := Prefixes(n) + w;
    assert Prefixes(n)[..|TagSpace|] == TagSpace;
    assert s[..|TagSpace|] == Prefixes(n)[..|TagSpace|];
    StartsWithTagSpace(s);
  }

  /** After a completed batch, a listed bug no longer needs the tag and an
      unlisted one is untouched. */
  lemma TagBugzillasTags(wbs: Whiteboards, ids: seq<BugId>, id: BugId)
    requires TagBugzillas(wbs, ids).aborted.None?
    requires id in wbs
    ensures id in ids ==> !NeedsTag(TagBugzillas(wbs, ids).wbs[id])
    ensures id !in ids ==> TagBugzillas(wbs, ids).wbs[id] == wbs[id]
  {
    TagBugzillasEffect(wbs, ids, id);
    var c := multiset(ids)[id];
    assert id in ids <==> c > 0 by {
      assert id in ids <==> id in multiset(ids);
    }
    if c > 0 {
      PrefixedIsTagged(c, wbs[id]);
    }
  }

  /** The batch stops at the first listed id the tracker lacks, having
      applied exactly the updates for the ids before it. */
  lemma {:induction false} TagBugzillasAbort(wbs: Whiteboards, ids: seq<BugId>, k: nat)
    requires k < |ids| && ids[k] !in wbs
    requires forall j :: 0 <= j < k ==> ids[j] in wbs
    ensures TagBugzillas(wbs, ids) == TagRun(TagBugzillas(wbs, ids[..k]).wbs, Some(ids[k]))
    decreases k
  {
    if k == 0 {
      assert ids[..0] == [];
    } else {
      var x := ids[0];
      assert x in wbs;
      var wbs' := wbs[x := Tagged(wbs[x])];
      assert TagBugzillas(wbs, ids) == TagBugzillas(wbs', ids[1..]);
      assert ids[..k][0] == x && ids[..k][1..] == ids[1..][..k - 1];
      assert TagBugzillas(wbs, ids[..k]) == TagBugzillas(wbs', ids[1..][..k - 1]);
      assert forall j :: 0 <= j < k - 1 ==> ids[1..][j] == ids[j + 1];
      TagBugzillasAbort(wbs', ids[1..], k - 1);
    }
  }

  /** An id listed twice is prefixed twice. */
  lemma DuplicateTaggedTwice()
    ensures TagBugzillas(map[7 := "foo"], [7, 7]) == TagRun(map[7 := "Telco Telco foo"], None)
  {
    assert [7, 7][1..] == [7] && [7][1..] == [];
    var once := map[7 := "Telco foo"];
    assert Tagged("foo") == "Telco foo";
    assert Tagged("Telco foo") == "Telco Telco foo";
    assert map[7 := "foo"][7 := Tagged("foo")] == once;
    assert once[7 := Tagged("Telco foo")] == map[7 := "Telco Telco foo"];
    assert TagBugzillas(map[7 := "Telco Telco foo"], []) == TagRun(map[7 := "Telco Telco foo"], None);
    assert TagBugzillas(once, [7]) == TagRun(map[7 := "Telco Telco foo"], None);
  }
}
