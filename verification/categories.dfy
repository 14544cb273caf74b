/** The category views: the list of distinct tags over all notes, which of
    them are selected, and the notes carrying one tag. */
module Categories {
  import opened Notes
  import Seqs

  /** Some note carries the tag. */
  predicate Tagged(notes: seq<Note>, t: string) {
    exists n :: n in notes && t in n.tags
  }

  /** `notes.flatMap(note => note.tags)`. */
  function FlatTags(notes: seq<Note>): (r: seq<string>)
    ensures forall t :: t in r <==> Tagged(notes, t)
    decreases |notes|
  {
    if notes == [] then []
    else
      assert forall n :: n in notes <==> n == notes[0] || n in notes[1..];
      notes[0].tags + FlatTags(notes[1..])
  }

  /** `Array.from(new Set(notes.flatMap(note => note.tags)))`: every tag
      once, in the order of its first occurrence. */
  function DistinctTags(notes: seq<Note>): (tags: seq<string>)
    ensures Seqs.NoDup(tags)
    ensures forall t :: t in tags <==> Tagged(notes, t)
    ensures forall a, b :: 0 <= a < b < |tags| ==>
              Seqs.IndexOf(FlatTags(notes), tags[a]) < Seqs.IndexOf(FlatTags(notes), tags[b])
  {
    Seqs.Dedup(FlatTags(notes))
  }

  /** When no tag repeats across the notes, the picker lists exactly the flattened tags. */
  lemma DistinctTagsOfDistinct(notes: seq<Note>)
    requires Seqs.NoDup(FlatTags(notes))
    ensures DistinctTags(notes) == FlatTags(notes)
  {
    Seqs.DedupOfDistinct(FlatTags(notes));
  }

  /** A tag chip in the picker and whether it is drawn as selected. */
  datatype Chip = Chip(tag: string, selected: bool)

  /** The picker's chips: one per tag, in order, selected exactly when the tag is in `selected`. */
  function Chips(tags: seq<string>, selected: seq<string>): (r: seq<Chip>)
    ensures |r| == |tags|
    ensures forall i :: 0 <= i < |tags| ==> r[i].tag == tags[i]
    ensures forall i :: 0 <= i < |tags| ==> (r[i].selected <==> tags[i] in selected)
  {
    seq(|tags|, i requires 0 <= i < |tags| => Chip(tags[i], tags[i] in selected))
  }

  /** The notes listed under a tag: those whose tags contain it, unmodified and in store order. */
  function NotesWithTag(notes: seq<Note>, tag: string): (r: seq<Note>)
    ensures forall n :: n in r <==> n in notes && tag in n.tags
    ensures forall n :: multiset(r)[n] == if tag in n.tags then multiset(notes)[n] else 0
    ensures Seqs.IsSubseq(r, notes)
  {
    var has := (n: Note) => tag in n.tags;
    Seqs.FilterIsSubseq(notes, has);
    Seqs.Filter(notes, has)
  }
}
