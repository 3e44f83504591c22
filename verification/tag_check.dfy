/** The "Telco" tag carried in a bug's internal whiteboard: the check that decides
    whether a bug still needs it, and the rewrite that adds it. */
module TagCheck {
  import opened Strings

  /** The tag itself, and the two separators the check accepts after it. */
  const Tag: string := "Telco"
  const TagSpace: string := "Telco "
  const TagComma: string := "Telco, "

  /** The condition under which a bug is reported as untagged: the whiteboard
      contains neither "Telco " nor "Telco, " and its last five characters,
      taken with Python's `w[-5:]`, are not "Telco". */
  predicate NeedsTag(w: string) {
    !Contains(w, TagSpace) && Tag != PyTail(w, 5) && !Contains(w, TagComma)
  }

  /** The three tag positions, stated without the scanning or slicing: a
      whiteboard needs the tag exactly when "Telco " occurs nowhere, "Telco, "
      occurs nowhere, and it does not end with "Telco". */
  lemma NeedsTagIff(w: string)
    ensures NeedsTag(w) <==>
      && (forall i: nat :: !OccursAt(w, TagSpace, i))
      && !EndsWith(w, Tag)
      && (forall i: nat :: !OccursAt(w, TagComma, i))
  {
    PyTailIsEndsWith(w, Tag);
  }

  /** A whiteboard shorter than the tag is always reported: neither substring
      fits in it, and `w[-5:]` is then the whole, too short, string. */
  lemma ShortWhiteboardNeedsTag(w: string)
    requires |w| < |Tag|
    ensures NeedsTag(w)
  {
    NeedsTagIff(w);
  }

  /** The new whiteboard the tagger submits: "Telco " in front of the old one. */
  function Tagged(w: string): (r: string)
    ensures |r| == |w| + |TagSpace|
    ensures r[..|TagSpace|] == TagSpace
    ensures EndsWith(r, w)
    ensures !NeedsTag(r)
  {
    ContainsPrefix(TagSpace, w);
    TagSpace + w
  }

  /** Any whiteboard that starts with "Telco " is no longer reported, whatever follows. */
  lemma StartsWithTagSpace(w: string)
    requires |TagSpace| <= |w| && w[..|TagSpace|] == TagSpace
    ensures !NeedsTag(w)
  {
    assert OccursAt(w, TagSpace, 0);
  }

  /** Both accepted separators hold a space, so in a whiteboard without spaces
      only the suffix position can carry the tag. */
  lemma SingleWordNeedsTag(w: string)
    requires forall k :: 0 <= k < |w| ==> w[k] != ' '
    ensures NeedsTag(w) <==> !EndsWith(w, Tag)
  {
    forall i: nat
      ensures !OccursAt(w, TagSpace, i) && !OccursAt(w, TagComma, i)
    {
      if i + |TagSpace| <= |w| {
        assert w[i..i + |TagSpace|][5] == w[i + 5] != TagSpace[5];
      }
      if i + |TagComma| <= |w| {
        assert w[i..i + |TagComma|][6] == w[i + 6] != TagComma[6];
      }
    }
    NeedsTagIff(w);
  }

  /** The three accepted positions, one example each. */
  lemma TaggedExamples()
    ensures !NeedsTag("Telco foo")
    ensures !NeedsTag("foo Telco")
    ensures !NeedsTag("Telco, foo")
  {
    assert OccursAt("Telco foo", TagSpace, 0);
    assert OccursAt("Telco, foo", TagComma, 0);
    assert PyTail("foo Telco", 5) == "foo Telco"[4..];
  }

  /** The tag glued to the front of another word, or in lower case, is not the tag. */
  lemma UntaggedExamples()
    ensures NeedsTag("Telcofoo")
    ensures NeedsTag("telco")
    ensures NeedsTag("")
    ensures NeedsTag("other")
  {
    SingleWordNeedsTag("other");
    SingleWordNeedsTag("Telcofoo");
    SingleWordNeedsTag("telco");
  }

  /** The check is by substring, not by whole word: a word that merely ends in
      "Telco", or a "Telco " inside a longer word, already counts as the tag. */
  lemma TagInsideWordCounts()
    ensures !NeedsTag("NotTelco")
    ensures !NeedsTag("xTelco y")
  {
    assert OccursAt("xTelco y", TagSpace, 1);
  }
}
