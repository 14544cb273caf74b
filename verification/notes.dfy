/** The note record and the argument shapes of the store's operations. */
module Notes {
  import opened Wrappers

  /** A `Date`, kept only as an ordered instant in milliseconds. */
  datatype Timestamp = Timestamp(millis: int)

  predicate AtOrBefore(a: Timestamp, b: Timestamp) {
    a.millis <= b.millis
  }

  datatype Note = Note(
    id: string,
    title: string,
    content: string,
    tags: seq<string>,
    createdAt: Timestamp,
    updatedAt: Timestamp,
    isFavorite: bool)

  /** The object handed to `addNote`. Its declared type omits `id`,
      `createdAt` and `updatedAt`, but a caller's object may still carry
      them at run time; they are kept here so that the store's overriding
      of them is visible. */
  datatype Draft = Draft(
    title: string,
    content: string,
    tags: seq<string>,
    isFavorite: bool,
    id: Option<string>,
    createdAt: Option<Timestamp>,
    updatedAt: Option<Timestamp>)

  /** `Partial<Note>`: every field may be absent (`None`). */
  datatype NotePatch = NotePatch(
    id: Option<string>,
    title: Option<string>,
    content: Option<string>,
    tags: Option<seq<string>>,
    createdAt: Option<Timestamp>,
    updatedAt: Option<Timestamp>,
    isFavorite: Option<bool>)

  /** The ids of `notes`, in store order. */
  function Ids(notes: seq<Note>): (r: seq<string>)
    ensures |r| == |notes|
    ensures forall i :: 0 <= i < |notes| ==> r[i] == notes[i].id
  {
    seq(|notes|, i requires 0 <= i < |notes| => notes[i].id)
  }

  /** No two notes share an id. The store does not enforce this. */
  predicate UniqueIds(notes: seq<Note>) {
    forall i, j :: 0 <= i < j < |notes| ==> notes[i].id != notes[j].id
  }

  /** Every note was last updated no earlier than it was created. */
  predicate WellTimed(notes: seq<Note>) {
    forall i :: 0 <= i < |notes| ==> AtOrBefore(notes[i].createdAt, notes[i].updatedAt)
  }
}
