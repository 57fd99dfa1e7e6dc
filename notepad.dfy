/**
 * The notepad of Labs/1: a writer page keeps a list of notes, changed in place by
 * add, remove and edit, and stores their texts in one local-storage slot after each
 * change; a reader page rebuilds its own list from that slot.
 *
 * The slot under the key "notes" is a `Storage` object holding `None` when nothing
 * is stored, or the texts of the notes serialised in it (the serialisation keeps
 * each note's `text` and nothing else that is read back).
 */
module Notepad {
  import opened Wrappers

  /** A note; only its text outlives the page. */
  class Note {
    var text: string

    constructor(text: string)
      ensures this.text == text
    {
      this.text := text;
    }
  }

  /** The local-storage slot of the notepad. */
  class Storage {
    var slot: Option<seq<string>>

    constructor(slot: Option<seq<string>>)
      ensures this.slot == slot
    {
      this.slot := slot;
    }
  }

  /** The texts read back from the slot: none when nothing is stored. */
  function StoredTexts(slot: Option<seq<string>>): (r: seq<string>)
    ensures slot.None? ==> r == []
    ensures slot.Some? ==> r == slot.value
  {
    match slot
    case None => []
    case Some(ts) => ts
  }

  /** The texts of a list of notes, in order. */
  function Texts(ns: seq<Note>): (r: seq<string>)
    reads ns
    ensures |r| == |ns|
    ensures forall i :: 0 <= i < |ns| ==> r[i] == ns[i].text
  {
    if ns == [] then [] else Texts(ns[..|ns| - 1]) + [ns[|ns| - 1].text]
  }

  /** No note occurs twice. */
  predicate Distinct<T(==)>(s: seq<T>) {
    forall i, j :: 0 <= i < j < |s| ==> s[i] != s[j]
  }

  /** `s` with every occurrence of `x` removed, the rest in order. */
  function Without<T(==)>(s: seq<T>, x: T): (r: seq<T>)
    ensures |r| <= |s|
  {
    if s == [] then []
    else (if s[0] == x then [] else [s[0]]) + Without(s[1..], x)
  }

  /** Removal keeps every other element with its number of occurrences and drops every copy of `x`. */
  lemma {:induction false} WithoutMultiset<T>(s: seq<T>, x: T)
    ensures multiset(Without(s, x)) == multiset(s)[x := 0]
  {
    if s != [] {
      var t := s[1..];
      WithoutMultiset(t, x);
      assert s == [s[0]] + t;
      if s[0] == x {
        assert Without(s, x) == Without(t, x);
      } else {
        assert Without(s, x) == [s[0]] + Without(t, x);
      }
    }
  }

  /** Removing an element that is not there changes nothing. */
  lemma {:induction false} WithoutAbsent<T>(s: seq<T>, x: T)
    requires x !in s
    ensures Without(s, x) == s
  {
    if s != [] {
      WithoutAbsent(s[1..], x);
    }
  }

  /** The tail of a list without repeats has none either, and does not hold the head. */
  lemma DistinctTail<T>(s: seq<T>)
    requires Distinct(s) && s != []
    ensures Distinct(s[1..]) && s[0] !in s[1..]
  {
    var t := s[1..];
    forall i, j | 0 <= i < j < |t|
      ensures t[i] != t[j]
    {
      assert t[i] == s[i + 1] && t[j] == s[j + 1];
    }
    forall k | 0 <= k < |t|
      ensures t[k] != s[0]
    {
      assert t[k] == s[k + 1];
    }
  }

  /** In a list without repeats, removing the element at `p` cuts out exactly that position. */
  lemma {:induction false} WithoutAt<T>(s: seq<T>, x: T, p: nat)
    requires Distinct(s) && p < |s| && s[p] == x
    ensures Without(s, x) == s[..p] + s[p + 1..]
  {
    DistinctTail(s);
    var t := s[1..];
    if p == 0 {
      WithoutAbsent(t, x);
      assert Without(s, x) == t;
    } else {
      WithoutAt(t, x, p - 1);
      assert t[..p - 1] == s[1..p] && t[p..] == s[p + 1..];
      WithoutKeepsHead(s, x, p);
    }
  }

  /** A head other than `x` stays in front of a tail with one position cut out. */
  lemma WithoutKeepsHead<T>(s: seq<T>, x: T, p: nat)
    requires 0 < p < |s| && s[0] != x
    requires Without(s[1..], x) == s[1..p] + s[p + 1..]
    ensures Without(s, x) == s[..p] + s[p + 1..]
  {
    assert Without(s, x) == [s[0]] + Without(s[1..], x);
    ConsCut(s, p);
  }

  /** Putting the head back in front of a tail with position `p` cut out. */
  lemma ConsCut<T>(s: seq<T>, p: nat)
    requires 0 < p < |s|
    ensures [s[0]] + (s[1..p] + s[p + 1..]) == s[..p] + s[p + 1..]
  {
    assert [s[0]] + s[1..p] == s[..p];
  }

  /** Appending an element not yet present keeps a list free of repeats. */
  lemma AppendDistinct<T>(s: seq<T>, x: T)
    requires Distinct(s) && x !in s
    ensures Distinct(s + [x])
  {
  }

  /** The texts of a list with one more note. */
  lemma TextsAppend(ns: seq<Note>, n: Note)
    ensures Texts(ns + [n]) == Texts(ns) + [n.text]
  {
    assert (ns + [n])[..|ns|] == ns;
  }

  /** A list that extends `ns0` with notes holding the texts `ts` has the texts of `ns0` followed by `ts`. */
  lemma TextsExtend(ns0: seq<Note>, ns: seq<Note>, ts: seq<string>)
    requires |ns| == |ns0| + |ts| && ns[..|ns0|] == ns0
    requires forall j :: |ns0| <= j < |ns| ==> ns[j].text == ts[j - |ns0|]
    ensures Texts(ns) == Texts(ns0) + ts
  {
    var r := Texts(ns0) + ts;
    forall j | 0 <= j < |ns|
      ensures Texts(ns)[j] == r[j]
    {
      if j < |ns0| {
        assert ns[j] == ns0[j];
      }
    }
  }

  /** Cutting out one position keeps a list free of repeats. */
  lemma CutDistinct<T>(s: seq<T>, p: nat)
    requires Distinct(s) && p < |s|
    ensures Distinct(s[..p] + s[p + 1..])
  {
    var r := s[..p] + s[p + 1..];
    forall i, j | 0 <= i < j < |r|
      ensures r[i] != r[j]
    {
      var si := if i < p then i else i + 1;
      var sj := if j < p then j else j + 1;
      assert r[i] == s[si] && r[j] == s[sj] && si < sj;
    }
  }

  /** The writer page. */
  class Writer {
    var notes: seq<Note>
    const storage: Storage

    /** The constructor: an empty list, then the stored notes loaded. */
    constructor(storage: Storage)
      ensures this.storage == storage
      ensures Texts(notes) == StoredTexts(storage.slot)
      ensures Distinct(notes) && forall i :: 0 <= i < |notes| ==> fresh(notes[i])
    {
      this.storage := storage;
      notes := [];
      new;
      GetNotes();
    }

    /** `getNotes`: a new note for every stored text, appended in order. */
    method GetNotes()
      requires Distinct(notes)
      modifies this
      ensures |notes| >= |old(notes)| && notes[..|old(notes)|] == old(notes)
      ensures Texts(notes) == old(Texts(notes)) + StoredTexts(storage.slot)
      ensures forall i :: |old(notes)| <= i < |notes| ==> fresh(notes[i])
      ensures Distinct(notes)
    {
      var jsonNotes := storage.slot;
      if jsonNotes.Some? {
        var ts := jsonNotes.value;
        ghost var n0 := |notes|;
        for i := 0 to |ts|
          invariant |notes| == n0 + i && notes[..n0] == old(notes)
          invariant forall j :: n0 <= j < |notes| ==> fresh(notes[j]) && notes[j].text == ts[j - n0]
          invariant Distinct(notes)
        {
          var newNote := CreateNote(ts[i]);
          AppendDistinct(notes, newNote);
          notes := notes + [newNote];
        }
        TextsExtend(old(notes), notes, ts);
      }
    }

    /** `createNote`: a new note with the given text. */
    method CreateNote(text: string) returns (newNote: Note)
      ensures fresh(newNote) && newNote.text == text
    {
      newNote := new Note(text);
    }

    /** `addNote`: one empty note at the end, then everything stored. */
    method AddNote() returns (newNote: Note)
      requires Distinct(notes)
      modifies this, storage
      ensures fresh(newNote) && newNote.text == ""
      ensures notes == old(notes) + [newNote]
      ensures Texts(notes) == old(Texts(notes)) + [""]
      ensures storage.slot == Some(Texts(notes))
      ensures Distinct(notes)
    {
      newNote := CreateNote("");
      TextsAppend(notes, newNote);
      AppendDistinct(notes, newNote);
      notes := notes + [newNote];
      StoreNotes();
    }

    /**
     * `removeNote`: a walk over the indices the list had at the start, cutting out
     * the note identical to `delNote`; then everything stored. After a cut the next
     * note is skipped, which matters only for a note listed twice.
     */
    method RemoveNote(delNote: Note)
      requires Distinct(notes)
      modifies this, storage
      ensures notes == Without(old(notes), delNote)
      ensures storage.slot == Some(Texts(notes))
      ensures Distinct(notes)
    {
      ghost var o := notes;
      ghost var found := -1;
      var len := |notes|;
      var i := 0;
      while i < len
        invariant 0 <= i <= len && len == |o|
        invariant found == -1 ==> delNote !in o[..i] && notes == o
        invariant found != -1 ==> 0 <= found < i && o[found] == delNote && notes == o[..found] + o[found + 1..]
      {
        if i < |notes| && notes[i] == delNote {
          notes := notes[..i] + notes[i + 1..];
          found := i;
        }
        assert o[..i + 1] == o[..i] + [o[i]];
        i := i + 1;
      }
      if found == -1 {
        assert o[..len] == o;
        WithoutAbsent(o, delNote);
      } else {
        WithoutAt(o, delNote, found);
        CutDistinct(o, found);
      }
      StoreNotes();
    }

    /** The change listener of a note: the new text taken over, then everything stored. */
    method EditNote(note: Note, value: string)
      requires note in notes
      modifies note, storage
      ensures note.text == value
      ensures forall i :: 0 <= i < |notes| ==> Texts(notes)[i] == if notes[i] == note then value else old(notes[i].text)
      ensures storage.slot == Some(Texts(notes))
    {
      note.text := value;
      StoreNotes();
    }

    /** `storeNotes`: the slot overwritten with the current texts. */
    method StoreNotes()
      modifies storage
      ensures storage.slot == Some(Texts(notes))
    {
      storage.slot := Some(Texts(notes));
    }
  }

  /** The reader page. */
  class Reader {
    var notes: seq<Note>
    const storage: Storage

    constructor(storage: Storage)
      ensures this.storage == storage
      ensures Texts(notes) == StoredTexts(storage.slot)
    {
      this.storage := storage;
      notes := [];
      new;
      GetNotes();
    }

    /** `getNotes`: the list emptied, then one note per stored text. */
    method GetNotes()
      modifies this
      ensures Texts(notes) == StoredTexts(storage.slot)
      ensures forall i :: 0 <= i < |notes| ==> fresh(notes[i])
    {
      notes := [];
      var jsonNotes := storage.slot;
      if jsonNotes.Some? {
        var ts := jsonNotes.value;
        for i := 0 to |ts|
          invariant |notes| == i
          invariant forall j :: 0 <= j < i ==> fresh(notes[j]) && notes[j].text == ts[j]
        {
          var note := new Note(ts[i]);
          notes := notes + [note];
        }
        assert Texts(notes) == ts;
      }
    }

    /** `updateNotes`: reloads; the old list is dropped, so nothing is duplicated. */
    method UpdateNotes()
      modifies this
      ensures Texts(notes) == StoredTexts(storage.slot)
    {
      GetNotes();
    }
  }

  /** Storing a writer's notes and opening a new writer page on the slot gives back the same texts. */
  method StoreThenReopen(w: Writer) returns (reopened: Writer)
    modifies w.storage
    ensures fresh(reopened) && reopened.storage == w.storage
    ensures Texts(reopened.notes) == Texts(w.notes)
  {
    w.StoreNotes();
    reopened := new Writer(w.storage);
  }

  /** What a writer stores, a reader shows. */
  method StoreThenRead(w: Writer, r: Reader)
    requires r.storage == w.storage
    modifies w.storage, r
    ensures Texts(r.notes) == Texts(w.notes)
  {
    w.StoreNotes();
    r.UpdateNotes();
  }
}
