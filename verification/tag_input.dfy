/** The tag editor beneath a note: a tag list plus the text being typed. */
module TagInput {
  import opened Text
  import Seqs

  const MaxTags: nat := 3

  datatype TagEditor = TagEditor(tags: seq<string>, input: string)

  /** The tag list the editor maintains: at most three distinct tags. */
  predicate ValidTags(tags: seq<string>) {
    |tags| <= MaxTags && Seqs.NoDup(tags)
  }

  /** Whether `handleAddTag` accepts the current input. */
  predicate Accepts(e: TagEditor) {
    var t := Trim(e.input);
    t != [] && |e.tags| < MaxTags && t !in e.tags
  }

  /** `handleAddTag`: an accepted input is trimmed, appended and cleared;
      otherwise nothing changes. */
  function AddTag(e: TagEditor): (r: TagEditor)
    ensures Accepts(e) ==> r.tags == e.tags + [Trim(e.input)] && r.input == []
    ensures !Accepts(e) ==> r == e
    ensures |r.tags| <= |e.tags| + 1 && r.tags[..|e.tags|] == e.tags
  {
    if Accepts(e) then TagEditor(e.tags + [Trim(e.input)], []) else e
  }

  /** `handleRemoveTag`: every occurrence of the tag is dropped; the input is untouched. */
  function RemoveTag(e: TagEditor, tag: string): (r: TagEditor)
    ensures r.input == e.input
    ensures forall t :: t in r.tags <==> t in e.tags && t != tag
    ensures forall t :: multiset(r.tags)[t] == if t != tag then multiset(e.tags)[t] else 0
    ensures |r.tags| <= |e.tags|
    ensures Seqs.IsSubseq(r.tags, e.tags)
    ensures tag !in e.tags ==> r == e
  {
    var keep := (t: string) => t != tag;
    Seqs.FilterIsSubseq(e.tags, keep);
    if tag !in e.tags then
      Seqs.FilterKeepsAll(e.tags, keep);
      TagEditor(Seqs.Filter(e.tags, keep), e.input)
    else
      TagEditor(Seqs.Filter(e.tags, keep), e.input)
  }

  /** Adding keeps the list at most three long and free of duplicates. */
  lemma AddKeepsValid(e: TagEditor)
    requires ValidTags(e.tags)
    ensures ValidTags(AddTag(e).tags)
  {
    if Accepts(e) {
      var r := AddTag(e).tags;
      forall i, j | 0 <= i < j < |r|
        ensures r[i] != r[j]
      {
        if j == |e.tags| {
          assert r[i] == e.tags[i];
        }
      }
    }
  }

  /** Removing keeps the list valid. */
  lemma RemoveKeepsValid(e: TagEditor, tag: string)
    requires ValidTags(e.tags)
    ensures ValidTags(RemoveTag(e, tag).tags)
  {
    var r := RemoveTag(e, tag).tags;
    forall i, j | 0 <= i < j < |r|
      ensures r[i] != r[j]
    {
      Seqs.SubseqIndices(r, e.tags, i, j);
    }
  }

  /** Every tag the editor adds is non-empty and has no surrounding whitespace. */
  lemma AddedTagIsTidy(e: TagEditor)
    requires Accepts(e)
    ensures var t := AddTag(e).tags[|e.tags|]; t != [] && IsTrimmed(t)
  {
  }

  /** Removing the tag that was just added restores the tag list. */
  lemma RemoveUndoesAdd(e: TagEditor)
    requires Accepts(e)
    ensures RemoveTag(AddTag(e), Trim(e.input)).tags == e.tags
  {
    var t := Trim(e.input);
    var keep := (x: string) => x != t;
    Seqs.FilterAppendRejected(e.tags, t, keep);
    Seqs.FilterKeepsAll(e.tags, keep);
  }

  /** A rejected add leaves tags and input as they were, whichever rule rejected it. */
  lemma RejectedAddIsNoop(e: TagEditor)
    requires Trim(e.input) == [] || |e.tags| >= MaxTags || Trim(e.input) in e.tags
    ensures AddTag(e) == e
  {
  }
}
