/** The case table that the portal search produces: one entry per case number,
    kept in the order a Python dict keeps its keys (first insertion), each
    holding the case's status and, when the search returned one, its linked bug
    number. */
module Cases {
  import opened Wrappers

  /** A search document as decoded from JSON: field name to value. */
  type Document = map<string, string>

  /** The three fields the search requests. */
  const NumberField: string := "case_number"
  const StatusField: string := "case_status"
  const BugField: string := "case_bugzillaNumber"

  /** The record the script stores for a case, with its key beside it. */
  datatype CaseEntry = CaseEntry(caseNumber: string, status: string, bug: Option<string>)

  /** The dict of cases, as its entries in iteration order. */
  type CaseTable = seq<CaseEntry>

  /** A document carries both fields the script reads unconditionally. */
  predicate Readable(doc: Document) {
    NumberField in doc && StatusField in doc
  }

  /** The record a readable document yields: the optional bug is present
      exactly when the document has the bug field. */
  function EntryOf(doc: Document): CaseEntry
    requires Readable(doc)
  {
    CaseEntry(doc[NumberField], doc[StatusField],
              if BugField in doc then Some(doc[BugField]) else None)
  }

  /** Reads one document. The record's value is evaluated before the key it is
      stored under, so a missing status is reported before a missing number. */
  function ReadDocument(doc: Document): (r: Result<CaseEntry, Fault>)
    ensures r.Success? <==> Readable(doc)
    ensures r.Success? ==> r.value == EntryOf(doc)
    ensures r.Failure? ==> r.error == MissingField(if StatusField !in doc then StatusField else NumberField)
  {
    if StatusField !in doc then Failure(MissingField(StatusField))
    else if NumberField !in doc then Failure(MissingField(NumberField))
    else Success(EntryOf(doc))
  }

  /** Reads the documents in order, stopping at the first unreadable one. */
  function ReadAll(docs: seq<Document>): (r: Result<seq<CaseEntry>, Fault>)
    ensures r.Success? <==> forall i :: 0 <= i < |docs| ==> Readable(docs[i])
    ensures r.Success? ==> |r.value| == |docs|
    ensures r.Success? ==> forall i :: 0 <= i < |docs| ==> r.value[i] == EntryOf(docs[i])
    ensures r.Failure? ==>
      exists i :: && 0 <= i < |docs| && !Readable(docs[i])
                  && (forall j :: 0 <= j < i ==> Readable(docs[j]))
                  && r.error == ReadDocument(docs[i]).error
  {
    if |docs| == 0 then Success([])
    else match ReadDocument(docs[0])
      case Failure(f) => Failure(f)
      case Success(e) =>
        match ReadAll(docs[1..])
        case Failure(f) => Failure(f)
        case Success(es) => Success([e] + es)
  }

  /** The case numbers of a table, in iteration order. */
  function Numbers(t: seq<CaseEntry>): (r: seq<string>)
    ensures |r| == |t|
  {
    if |t| == 0 then [] else [t[0].caseNumber] + Numbers(t[1..])
  }

  /** A number is among a table's numbers iff some entry carries it. */
  lemma {:induction false} NumbersHas(t: seq<CaseEntry>, k: string)
    ensures k in Numbers(t) <==> exists i :: 0 <= i < |t| && t[i].caseNumber == k
    decreases |t|
  {
    if |t| != 0 {
      NumbersHas(t[1..], k);
      if exists i :: 0 <= i < |t| && t[i].caseNumber == k {
        var i :| 0 <= i < |t| && t[i].caseNumber == k;
        if i > 0 {
          assert t[1..][i - 1].caseNumber == k;
        }
      }
      if k in Numbers(t[1..]) {
        var i :| 0 <= i < |t[1..]| && t[1..][i].caseNumber == k;
        assert t[i + 1].caseNumber == k;
      }
    }
  }

  /** The numbers of a table whose last entry is split off. */
  lemma {:induction false} NumbersSnoc(es: seq<CaseEntry>)
    requires |es| > 0
    ensures Numbers(es) == Numbers(es[..|es| - 1]) + [es[|es| - 1].caseNumber]
    decreases |es|
  {
    if |es| > 1 {
      NumbersSnoc(es[1..]);
      assert es[1..][..|es| - 2] == es[..|es| - 1][1..];
    }
  }

  /** No case number appears twice: the table is a dict. */
  predicate DistinctKeys(t: CaseTable) {
    |t| == 0 || (t[0].caseNumber !in Numbers(t[1..]) && DistinctKeys(t[1..]))
  }

  /** `cases[k]`, or None when `k` is not a key. */
  function Lookup(t: CaseTable, k: string): (r: Option<CaseEntry>)
    ensures r.Some? <==> k in Numbers(t)
    ensures r.Some? ==> r.value in t && r.value.caseNumber == k
  {
    if |t| == 0 then None
    else if t[0].caseNumber == k then Some(t[0])
    else Lookup(t[1..], k)
  }

  /** `cases[e.caseNumber] = e`: an existing key keeps its place and gets the
      new record in full; a new key goes last. */
  function Put(t: CaseTable, e: CaseEntry): (r: CaseTable)
    ensures Numbers(r) == if e.caseNumber in Numbers(t) then Numbers(t) else Numbers(t) + [e.caseNumber]
    ensures e.caseNumber !in Numbers(t) ==> r == t + [e]
    decreases |t|
  {
    if |t| == 0 then [e]
    else if t[0].caseNumber == e.caseNumber then
      assert ([e] + t[1..])[1..] == t[1..];
      [e] + t[1..]
    else
      var rest := Put(t[1..], e);
      assert ([t[0]] + rest)[1..] == rest;
      assert [t[0]] + (t[1..] + [e]) == t + [e];
      [t[0]] + rest
  }

  /** Storing a record keeps the keys distinct. */
  lemma {:induction false} PutDistinct(t: CaseTable, e: CaseEntry)
    requires DistinctKeys(t)
    ensures DistinctKeys(Put(t, e))
    decreases |t|
  {
    if |t| != 0 {
      var r := Put(t, e);
      if t[0].caseNumber == e.caseNumber {
        assert r[1..] == t[1..];
      } else {
        PutDistinct(t[1..], e);
        assert r[1..] == Put(t[1..], e);
      }
    }
  }

  /** After `Put`, the new key reads back the new record and every other key
      reads back what it did before. */
  lemma {:induction false} LookupPut(t: CaseTable, e: CaseEntry, k: string)
    ensures Lookup(Put(t, e), k) == if k == e.caseNumber then Some(e) else Lookup(t, k)
    decreases |t|
  {
    if |t| != 0 && t[0].caseNumber != e.caseNumber {
      var r := Put(t, e);
      assert r == [t[0]] + Put(t[1..], e);
      assert r[1..] == Put(t[1..], e);
      LookupPut(t[1..], e, k);
    }
  }

  /** The keys of `s` in the order they first appear. */
  function FirstOccurrences(s: seq<string>): seq<string>
  {
    if |s| == 0 then []
    else
      var init := s[..|s| - 1];
      FirstOccurrences(init) + (if s[|s| - 1] in init then [] else [s[|s| - 1]])
  }

  /** One more string at the end is a new first occurrence unless it was
      already there. */
  lemma FirstOccurrencesSnoc(a: seq<string>, x: string)
    ensures FirstOccurrences(a + [x]) == FirstOccurrences(a) + (if x in a then [] else [x])
  {
    assert (a + [x])[..|a|] == a;
  }

  /** The loop that fills the dict, one record per document in order. */
  function CaseMapOf(es: seq<CaseEntry>): (r: CaseTable)
    ensures DistinctKeys(r)
  {
    if |es| == 0 then []
    else
      var t := CaseMapOf(es[..|es| - 1]);
      PutDistinct(t, es[|es| - 1]);
      Put(t, es[|es| - 1])
  }

  /** The dict's keys are exactly the case numbers of the documents. */
  lemma {:induction false} CaseMapKeys(es: seq<CaseEntry>, k: string)
    ensures k in Numbers(CaseMapOf(es)) <==> k in Numbers(es)
    decreases |es|
  {
    if |es| != 0 {
      var init := es[..|es| - 1];
      var last := es[|es| - 1];
      var t := CaseMapOf(init);
      assert CaseMapOf(es) == Put(t, last);
      CaseMapKeys(init, k);
      CaseMapKeys(init, last.caseNumber);
      NumbersSnoc(es);
    }
  }

  /** Each key reads back the record of the LAST document with that number: a
      later document replaces the whole record, bug included. */
  lemma {:induction false} CaseMapLast(es: seq<CaseEntry>, i: nat)
    requires i < |es|
    requires forall j :: i < j < |es| ==> es[j].caseNumber != es[i].caseNumber
    ensures Lookup(CaseMapOf(es), es[i].caseNumber) == Some(es[i])
    decreases |es|
  {
    var init := es[..|es| - 1];
    var last := es[|es| - 1];
    LookupPut(CaseMapOf(init), last, es[i].caseNumber);
    if i < |es| - 1 {
      assert last.caseNumber != es[i].caseNumber;
      CaseMapLast(init, i);
    }
  }

  /** The dict iterates its keys in the order of their first document. */
  lemma {:induction false} CaseMapOrder(es: seq<CaseEntry>)
    ensures Numbers(CaseMapOf(es)) == FirstOccurrences(Numbers(es))
    decreases |es|
  {
    if |es| != 0 {
      var init := es[..|es| - 1];
      var last := es[|es| - 1];
      var t := CaseMapOf(init);
      assert CaseMapOf(es) == Put(t, last);
      CaseMapOrder(init);
      NumbersSnoc(es);
      FirstOccurrencesSnoc(Numbers(init), last.caseNumber);
      CaseMapKeys(init, last.caseNumber);
    }
  }

  /** `get_cases` after the search: read every document, then fill the dict.
      The run stops at the first document that lacks a number or a status. */
  function GetCases(docs: seq<Document>): (r: Result<CaseTable, Fault>)
    ensures r.Success? <==> forall i :: 0 <= i < |docs| ==> Readable(docs[i])
    ensures r.Failure? ==>
      exists i :: && 0 <= i < |docs| && !Readable(docs[i])
                  && (forall j :: 0 <= j < i ==> Readable(docs[j]))
                  && r.error == MissingField(if StatusField !in docs[i] then StatusField else NumberField)
    ensures r.Success? ==> DistinctKeys(r.value)
  {
    match ReadAll(docs)
    case Failure(f) => Failure(f)
    case Success(es) => Success(CaseMapOf(es))
  }

  /** The filled dict's keys are exactly the documents' case numbers. */
  lemma GetCasesKeys(docs: seq<Document>, k: string)
    requires GetCases(docs).Success?
    ensures k in Numbers(GetCases(docs).value) <==>
              exists j :: 0 <= j < |docs| && docs[j][NumberField] == k
  {
    var es := ReadAll(docs).value;
    CaseMapKeys(es, k);
    NumbersHas(es, k);
    if k in Numbers(es) {
      var j :| 0 <= j < |es| && es[j].caseNumber == k;
      assert docs[j][NumberField] == k;
    }
    if exists j :: 0 <= j < |docs| && docs[j][NumberField] == k {
      var j :| 0 <= j < |docs| && docs[j][NumberField] == k;
      assert es[j].caseNumber == k;
    }
  }

  /** The record under a case number is built from the last document with
      that number alone: its status, and a bug only if that document has one. */
  lemma GetCasesLast(docs: seq<Document>, i: nat)
    requires GetCases(docs).Success?
    requires i < |docs|
    requires forall j :: i < j < |docs| ==> docs[j][NumberField] != docs[i][NumberField]
    ensures Lookup(GetCases(docs).value, docs[i][NumberField]) == Some(EntryOf(docs[i]))
  {
    CaseMapLast(ReadAll(docs).value, i);
  }

  /** Three case documents in which case 1 comes back, first with a bug and
      then without one. */
  function ReplacedDocs(): seq<Document>
  {
    [map[NumberField := "1", StatusField := "Open", BugField := "7"],
     map[NumberField := "2", StatusField := "Open"],
     map[NumberField := "1", StatusField := "Waiting"]]
  }

  /** Every one of the three documents is read, in order. */
  lemma ReplacedDocsRead()
    ensures ReadAll(ReplacedDocs())
      == Success([CaseEntry("1", "Open", Some("7")), CaseEntry("2", "Open", None), CaseEntry("1", "Waiting", None)])
  {
    var docs := ReplacedDocs();
    var e1, e2, e3 := CaseEntry("1", "Open", Some("7")), CaseEntry("2", "Open", None),
                      CaseEntry("1", "Waiting", None);
    assert ReadDocument(docs[2]) == Success(e3);
    assert docs[1..][1..] == [docs[2]] && [docs[2]][1..] == [];
    assert ReadAll([]) == Success([]);
    assert [e3] == [e3] + [];
    assert ReadAll([docs[2]]) == Success([e3]);
    assert ReadDocument(docs[1]) == Success(e2);
    assert docs[1..][0] == docs[1] && [e2] + [e3] == [e2, e3];
    assert ReadAll(docs[1..]) == Success([e2, e3]);
    assert ReadDocument(docs[0]) == Success(e1);
    assert [e1] + [e2, e3] == [e1, e2, e3];
  }

  /** A case found twice, first with a bug and then without: the second
      record replaces the first, so the bug is gone, and the case keeps its
      first position. */
  lemma ReplacedRecordDropsBug()
    ensures GetCases(ReplacedDocs())
      == Success([CaseEntry("1", "Waiting", None), CaseEntry("2", "Open", None)])
  {
    var e1, e2, e3 := CaseEntry("1", "Open", Some("7")), CaseEntry("2", "Open", None),
                      CaseEntry("1", "Waiting", None);
    ReplacedDocsRead();
    assert [e1, e2, e3][..2] == [e1, e2] && [e1, e2][..1] == [e1];
    assert CaseMapOf([e1]) == [e1];
    assert CaseMapOf([e1, e2]) == [e1, e2];
    assert Put([e1, e2], e3) == [e3, e2];
  }
}
