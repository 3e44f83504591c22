/** `main`: fetch the cases, collect the untagged bugs, print them, and tag
    them when asked to. The three remote services are inputs: the search
    documents, the per-case bug links, and the bug tracker. */
module Pipeline {
  import opened Wrappers
  import opened Cases
  import opened Tracker
  import opened TagCheck
  import opened Resolver
  import opened Tagger

  /** What a run produces: the list it prints, and the batch that followed. */
  datatype Report = Report(untagged: seq<BugId>, tagging: TagRun)

  /** One run of the script; `apply` is the `--modify` flag. */
  function Run(docs: seq<Document>, links: Links, dir: Directory, wbs: Whiteboards, apply: bool): (r: Result<Report, Fault>)
    ensures r.Success? ==> forall id :: id in r.value.untagged ==> id in wbs && NeedsTag(wbs[id])
    ensures r.Success? && !apply ==> r.value.tagging == TagRun(wbs, None)
    ensures r.Success? && apply ==> r.value.tagging.aborted.None? && r.value.tagging.wbs.Keys == wbs.Keys
    ensures r.Success? <==> GetCases(docs).Success? && GetBugzillas(GetCases(docs).value, links, dir, wbs).Success?
  {
    match GetCases(docs)
    case Failure(f) => Failure(f)
    case Success(cases) =>
      match GetBugzillas(cases, links, dir, wbs)
      case Failure(f) => Failure(f)
      case Success(untagged) =>
        Success(Report(untagged, if apply then TagBugzillas(wbs, untagged) else TagRun(wbs, None)))
  }

  /** A tagging run leaves every reported bug tagged, and every bug it did not
      report exactly as it was. */
  lemma RunTagsReported(docs: seq<Document>, links: Links, dir: Directory, wbs: Whiteboards, id: BugId)
    requires Run(docs, links, dir, wbs, true).Success?
    requires id in wbs
    ensures var r := Run(docs, links, dir, wbs, true).value;
      && (id in r.untagged ==> !NeedsTag(r.tagging.wbs[id]))
      && (id !in r.untagged ==> r.tagging.wbs[id] == wbs[id])
  {
    TagBugzillasTags(wbs, Run(docs, links, dir, wbs, true).value.untagged, id);
  }

  /** Collecting again over the same bug numbers after the batch has tagged
      what the first collection reported finds nothing. */
  lemma {:induction false} CollectAfterTagging(refs: seq<string>, dir: Directory, wbs: Whiteboards)
    requires CollectRefs(refs, dir, wbs).Success?
    ensures TagBugzillas(wbs, CollectRefs(refs, dir, wbs).value).aborted.None?
    ensures CollectRefs(refs, dir, TagBugzillas(wbs, CollectRefs(refs, dir, wbs).value).wbs) == Success([])
  {
    var ids := CollectRefs(refs, dir, wbs).value;
    var wbs' := TagBugzillas(wbs, ids).wbs;
    var again := CollectRefs(refs, dir, wbs');
    assert again.Success?;
    if again.value != [] {
      var id := again.value[0];
      assert id in wbs' && NeedsTag(wbs'[id]);
      TagBugzillasTags(wbs, ids, id);
      CollectRefsCounts(refs, dir, wbs', id);
      CollectRefsCounts(refs, dir, wbs, id);
      assert false;
    }
  }

  /** Running the script again after a tagging run reports no bug: the tag the
      batch writes is one the check recognises, and nothing else changed. */
  lemma RerunReportsNothing(docs: seq<Document>, links: Links, dir: Directory, wbs: Whiteboards, apply: bool)
    requires Run(docs, links, dir, wbs, true).Success?
    ensures Run(docs, links, dir, Run(docs, links, dir, wbs, true).value.tagging.wbs, apply).Success?
    ensures Run(docs, links, dir, Run(docs, links, dir, wbs, true).value.tagging.wbs, apply).value.untagged == []
  {
    var t := GetCases(docs).value;
    CollectAfterTagging(LookedUp(t, links), dir, wbs);
  }

  /** The search documents of the example below: an open case 123 linked to
      bug 456, and a closed case 124 linked to bug 457. */
  function ExampleDocs(): seq<Document> {
    [map[NumberField := "123", StatusField := "Open", BugField := "456"],
     map[NumberField := "124", StatusField := ClosedStatus, BugField := "457"]]
  }

  lemma ExampleCases()
    ensures GetCases(ExampleDocs()) ==
      Success([CaseEntry("123", "Open", Some("456")), CaseEntry("124", ClosedStatus, Some("457"))])
  {
    var docs := ExampleDocs();
    var d1, d2 := docs[0], docs[1];
    var e1, e2 := CaseEntry("123", "Open", Some("456")), CaseEntry("124", ClosedStatus, Some("457"));
    assert ReadDocument(d1) == Success(e1);
    assert ReadDocument(d2) == Success(e2);
    assert docs[1..] == [d2] && [d2][1..] == [] && [e2] == [e2] + [];
    assert ReadAll([d2]) == Success([e2]);
    assert [e1] + [e2] == [e1, e2];
    assert ReadAll(docs) == Success([e1, e2]);
    assert [e1, e2][..1] == [e1];
    assert CaseMapOf([e1]) == [e1];
  }

  lemma ExampleLinks()
    ensures FetchLinks([CaseEntry("123", "Open", Some("456")), CaseEntry("124", ClosedStatus, Some("457"))],
                       map["123" := ["456"]])
      == Success([LinkedCase("123", ["456"])])
  {
    var e1, e2 := CaseEntry("123", "Open", Some("456")), CaseEntry("124", ClosedStatus, Some("457"));
    var links := map["123" := ["456"]];
    assert [e1, e2][1..] == [e2] && [e2][1..] == [];
    assert FetchLinks([e2], links) == Success([]);
    assert Eligible(e1) && "123" in links;
    var linked := [LinkedCase("123", ["456"])];
    assert linked + [] == linked;
  }

  lemma ExampleCollect()
    ensures CollectRefs(["456"], map["456" := 456], map[456 := "other"]) == Success([456])
  {
    UntaggedExamples();
    CollectOne("456", map["456" := 456], map[456 := "other"]);
  }

  lemma ExampleBugzillas()
    ensures GetBugzillas([CaseEntry("123", "Open", Some("456")), CaseEntry("124", ClosedStatus, Some("457"))],
                         map["123" := ["456"]], map["456" := 456], map[456 := "other"])
      == Success([456])
  {
    ExampleLinks();
    ExampleCollect();
    var linked := [LinkedCase("123", ["456"])];
    assert linked[1..] == [];
    assert AllRefs(linked) == ["456"] + [];
  }

  /** Tagging the example's one bug writes "Telco other" and completes. */
  lemma ExampleTagging()
    ensures TagBugzillas(map[456 := "other"], [456]) == TagRun(map[456 := "Telco other"], None)
  {
    assert [456][1..] == [];
    assert Tagged("other") == "Telco other";
    assert map[456 := "other"][456 := "Telco other"] == map[456 := "Telco other"];
  }

  /** The end-to-end run: the open case's bug is reported and, with the flag,
      its whiteboard becomes "Telco other". The closed case is never looked
      up, though the link endpoint knows nothing of it. */
  lemma EndToEndExample()
    ensures Run(ExampleDocs(), map["123" := ["456"]], map["456" := 456], map[456 := "other"], true)
      == Success(Report([456], TagRun(map[456 := "Telco other"], None)))
  {
    var cases := [CaseEntry("123", "Open", Some("456")), CaseEntry("124", ClosedStatus, Some("457"))];
    ExampleCases();
    ExampleBugzillas();
    ExampleTagging();
    assert GetCases(ExampleDocs()) == Success(cases);
    assert GetBugzillas(cases, map["123" := ["456"]], map["456" := 456], map[456 := "other"]) == Success([456]);
  }
}
