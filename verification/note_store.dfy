/** The note store's transitions. Each operation maps the current note list
    to the next one; the clock readings are arguments because the store
    reads them from `Date`. */
module NoteStore {
  import opened Wrappers
  import opened Notes
  import Seqs

  /** The decimal digit for `d`. */
  function Digit(d: nat): (c: char)
    requires d < 10
    ensures '0' <= c <= '9'
  {
    ('0' as int + d) as char
  }

  /** The number a digit character stands for. */
  function DigitValue(c: char): (d: nat)
    requires '0' <= c <= '9'
    ensures d < 10 && Digit(d) == c
  {
    c as int - '0' as int
  }

  predicate AllDigits(s: string) {
    forall i :: 0 <= i < |s| ==> '0' <= s[i] <= '9'
  }

  /** The number a string of decimal digits stands for, read most
      significant digit first. */
  function DigitsValue(s: string): nat
    requires AllDigits(s)
    decreases |s|
  {
    if s == [] then 0 else DigitsValue(s[..|s| - 1]) * 10 + DigitValue(s[|s| - 1])
  }

  /** `n.toString()` for a natural number: its decimal digits, without
      leading zeros, which read back as `n`. */
  function Decimal(n: nat): (r: string)
    ensures |r| >= 1 && AllDigits(r)
    ensures DigitsValue(r) == n
    ensures r[0] == '0' <==> n == 0
    ensures |r| == 1 || r[0] != '0'
    decreases n
  {
    if n < 10 then [Digit(n)]
    else
      var init := Decimal(n / 10);
      var r := init + [Digit(n % 10)];
      assert r[..|r| - 1] == init;
      r
  }

  /** The reading an id stands for: a leading `-` negates the digits after it. */
  function ReadClockId(s: string): int
    requires s != []
    requires if s[0] == '-' then AllDigits(s[1..]) else AllDigits(s)
  {
    if s[0] == '-' then -(DigitsValue(s[1..]) as int) else DigitsValue(s)
  }

  /** `Date.now().toString()`: the clock reading in milliseconds, in
      decimal. The id starts with `-` exactly for a negative reading, has no
      leading zero, and reads back as the reading. */
  function ClockId(t: Timestamp): (r: string)
    ensures r != [] && (if r[0] == '-' then AllDigits(r[1..]) else AllDigits(r))
    ensures r[0] == '-' <==> t.millis < 0
    ensures r[0] == '0' <==> t.millis == 0
    ensures r[0] == '-' ==> |r| >= 2 && r[1] != '0'
    ensures r[0] != '-' ==> |r| == 1 || r[0] != '0'
    ensures ReadClockId(r) == t.millis
  {
    if t.millis < 0 then
      var d := Decimal(-t.millis);
      var r := "-" + d;
      assert r[1..] == d;
      r
    else Decimal(t.millis)
  }

  /** Two clock readings give the same id exactly when they are the same millisecond. */
  lemma ClockIdInjective(a: Timestamp, b: Timestamp)
    ensures ClockId(a) == ClockId(b) <==> a == b
  {
    if ClockId(a) == ClockId(b) {
      assert a.millis == ReadClockId(ClockId(a)) == ReadClockId(ClockId(b)) == b.millis;
    }
  }

  /** `addNote`: the draft, completed with the store-assigned id and
      timestamps, appended after every existing note. The id is the clock
      reading `idClock` in decimal; the two dates are separate readings. */
  function AddNote(notes: seq<Note>, draft: Draft, idClock: Timestamp, createdAt: Timestamp, updatedAt: Timestamp)
    : (r: seq<Note>)
    ensures |r| == |notes| + 1
    ensures r[..|notes|] == notes
    ensures r[|notes|].id == ClockId(idClock)
    ensures r[|notes|].createdAt == createdAt && r[|notes|].updatedAt == updatedAt
    ensures r[|notes|].title == draft.title && r[|notes|].content == draft.content
    ensures r[|notes|].tags == draft.tags && r[|notes|].isFavorite == draft.isFavorite
  {
    notes + [Note(ClockId(idClock), draft.title, draft.content, draft.tags, createdAt, updatedAt, draft.isFavorite)]
  }

  /** `{ ...note, ...patch, updatedAt: now }`: fields present in the patch
      win, absent ones are kept, and `updatedAt` is always the new time. */
  function Merge(note: Note, patch: NotePatch, now: Timestamp): (r: Note)
    ensures r.updatedAt == now
    ensures r.id == patch.id.GetOr(note.id)
    ensures r.title == patch.title.GetOr(note.title)
    ensures r.content == patch.content.GetOr(note.content)
    ensures r.tags == patch.tags.GetOr(note.tags)
    ensures r.createdAt == patch.createdAt.GetOr(note.createdAt)
    ensures r.isFavorite == patch.isFavorite.GetOr(note.isFavorite)
  {
    Note(
      patch.id.GetOr(note.id),
      patch.title.GetOr(note.title),
      patch.content.GetOr(note.content),
      patch.tags.GetOr(note.tags),
      patch.createdAt.GetOr(note.createdAt),
      now,
      patch.isFavorite.GetOr(note.isFavorite))
  }

  /** `updateNote`: every note with the given id is merged with the patch;
      the others, and the order, are untouched. */
  function UpdateNote(notes: seq<Note>, id: string, patch: NotePatch, now: Timestamp): (r: seq<Note>)
    ensures |r| == |notes|
    ensures forall i :: 0 <= i < |notes| && notes[i].id != id ==> r[i] == notes[i]
    ensures forall i :: 0 <= i < |notes| && notes[i].id == id ==> r[i] == Merge(notes[i], patch, now)
    ensures id !in Ids(notes) ==> r == notes
  {
    seq(|notes|, i requires 0 <= i < |notes| =>
      if notes[i].id == id then Merge(notes[i], patch, now) else notes[i])
  }

  /** `deleteNote`: the notes whose id differs, in their original order. */
  function DeleteNote(notes: seq<Note>, id: string): (r: seq<Note>)
    ensures forall n :: n in r <==> n in notes && n.id != id
    ensures forall n :: multiset(r)[n] == if n.id != id then multiset(notes)[n] else 0
    ensures Seqs.IsSubseq(r, notes)
    ensures id !in Ids(notes) ==> r == notes
  {
    var keep := (n: Note) => n.id != id;
    Seqs.FilterIsSubseq(notes, keep);
    if id !in Ids(notes) then
      Seqs.FilterKeepsAll(notes, keep);
      Seqs.Filter(notes, keep)
    else
      Seqs.Filter(notes, keep)
  }

  /** The note with its favourite flag flipped and nothing else changed. */
  function Flip(note: Note): (r: Note)
    ensures r.isFavorite == !note.isFavorite
    ensures r.(isFavorite := note.isFavorite) == note
  {
    note.(isFavorite := !note.isFavorite)
  }

  /** `toggleFavorite`: flips the flag of every note with the given id. The
      update time is left as it was. */
  function ToggleFavorite(notes: seq<Note>, id: string): (r: seq<Note>)
    ensures |r| == |notes|
    ensures forall i :: 0 <= i < |notes| && notes[i].id != id ==> r[i] == notes[i]
    ensures forall i :: 0 <= i < |notes| && notes[i].id == id ==>
              r[i].isFavorite == !notes[i].isFavorite && r[i].updatedAt == notes[i].updatedAt
              && r[i].(isFavorite := notes[i].isFavorite) == notes[i]
    ensures id !in Ids(notes) ==> r == notes
  {
    seq(|notes|, i requires 0 <= i < |notes| => if notes[i].id == id then Flip(notes[i]) else notes[i])
  }

  /** `updateNotes`: the collection becomes exactly the given list. */
  function UpdateNotes(notes: seq<Note>, incoming: seq<Note>): (r: seq<Note>)
    ensures r == incoming
  {
    incoming
  }

  /** Toggling the same note twice restores the collection. */
  lemma ToggleTwice(notes: seq<Note>, id: string)
    ensures ToggleFavorite(ToggleFavorite(notes, id), id) == notes
  {
    var once := ToggleFavorite(notes, id);
    var twice := ToggleFavorite(once, id);
    forall i | 0 <= i < |notes|
      ensures twice[i] == notes[i]
    {
      if notes[i].id == id {
        assert once[i] == Flip(notes[i]);
      }
    }
  }

  /** Applying the same update twice with the same clock reading is the
      same as applying it once, provided the patch does not move the note
      to another id. */
  lemma UpdateIdempotent(notes: seq<Note>, id: string, patch: NotePatch, now: Timestamp)
    requires patch.id == None || patch.id == Some(id)
    ensures UpdateNote(UpdateNote(notes, id, patch, now), id, patch, now) == UpdateNote(notes, id, patch, now)
  {
    var once := UpdateNote(notes, id, patch, now);
    var twice := UpdateNote(once, id, patch, now);
    forall i | 0 <= i < |notes|
      ensures twice[i] == once[i]
    {
      if notes[i].id == id {
        assert once[i].id == id;
      }
    }
  }

  /** An update whose patch sets only `title` changes the title and the
      update time of the matching notes and nothing else. */
  lemma UpdateTitleOnly(notes: seq<Note>, id: string, title: string, now: Timestamp)
    ensures var r := UpdateNote(notes, id, NotePatch(None, Some(title), None, None, None, None, None), now);
            forall i :: 0 <= i < |notes| && notes[i].id == id ==>
              r[i] == notes[i].(title := title, updatedAt := now)
  {
  }

  /** Adding a note whose clock-derived id is not yet in use keeps ids
      unique. The store does not check this. */
  lemma AddKeepsIdsUnique(notes: seq<Note>, draft: Draft, idClock: Timestamp, createdAt: Timestamp, updatedAt: Timestamp)
    requires UniqueIds(notes)
    requires ClockId(idClock) !in Ids(notes)
    ensures UniqueIds(AddNote(notes, draft, idClock, createdAt, updatedAt))
  {
    var r := AddNote(notes, draft, idClock, createdAt, updatedAt);
    forall i, j | 0 <= i < j < |r|
      ensures r[i].id != r[j].id
    {
      if j == |notes| {
        assert Ids(notes)[i] == notes[i].id;
      }
    }
  }

  /** Two consecutive adds give their notes the same id exactly when the
      clock reads the same millisecond both times. */
  lemma SameMillisecondCollides(notes: seq<Note>, d1: Draft, d2: Draft, t1: Timestamp, t2: Timestamp,
                                c1: Timestamp, u1: Timestamp, c2: Timestamp, u2: Timestamp)
    ensures var r := AddNote(AddNote(notes, d1, t1, c1, u1), d2, t2, c2, u2);
            r[|notes|].id == r[|notes| + 1].id <==> t1 == t2
    ensures t1 == t2 ==> !UniqueIds(AddNote(AddNote(notes, d1, t1, c1, u1), d2, t2, c2, u2))
  {
    var once := AddNote(notes, d1, t1, c1, u1);
    var r := AddNote(once, d2, t2, c2, u2);
    assert r[|notes|] == once[|notes|];
    ClockIdInjective(t1, t2);
  }

  /** Deleting and toggling never introduce a duplicate id. */
  lemma DeleteAndToggleKeepIdsUnique(notes: seq<Note>, id: string, other: string)
    requires UniqueIds(notes)
    ensures UniqueIds(ToggleFavorite(notes, other))
    ensures UniqueIds(DeleteNote(notes, id))
  {
    var d := DeleteNote(notes, id);
    forall i, j | 0 <= i < j < |d|
      ensures d[i].id != d[j].id
    {
      Seqs.SubseqIndices(d, notes, i, j);
    }
  }

  /** Adding with a creation time no later than the update time, and
      updating with a clock no earlier than any creation time and a patch
      that leaves `createdAt` alone, keep `createdAt <= updatedAt`. */
  lemma TransitionsKeepWellTimed(notes: seq<Note>, draft: Draft, idClock: Timestamp, c: Timestamp, u: Timestamp,
                                 id: string, patch: NotePatch, now: Timestamp)
    requires WellTimed(notes)
    requires AtOrBefore(c, u)
    requires patch.createdAt == None
    requires forall i :: 0 <= i < |notes| ==> AtOrBefore(notes[i].createdAt, now)
    ensures WellTimed(AddNote(notes, draft, idClock, c, u))
    ensures WellTimed(UpdateNote(notes, id, patch, now))
    ensures WellTimed(ToggleFavorite(notes, id))
  {
  }
}
