/** The note store (`NoteService`): one mutable collection of notes, the
    operations that replace it, the seed data used when nothing usable is
    stored, and the view of the collection sorted by `updatedAt`, newest first.
    Clock readings (`Date.now()`), fresh ids (`crypto.randomUUID()`) and the
    JSON parser are parameters. */
module NoteStore {
  import opened Wrappers
  import opened NoteModel
  import opened Sequences

  // ---------------------------------------------------------------------------
  // Creating a note

  /** `[newNote, ...notes]`, where `newNote` spreads `input` and adds `id`;
      `firstRead` and `secondRead` are the two clock readings taken for
      `createdAt` and `updatedAt`. */
  function AddedNotes(notes: seq<Note>, input: NoteInput, id: string, firstRead: int, secondRead: int): (r: seq<Note>)
    ensures |r| == |notes| + 1 && r[1..] == notes
    ensures r[0].id == id
    ensures r[0].title == input.title && r[0].content == input.content && r[0].category == input.category
    ensures r[0].createdAt == firstRead && r[0].updatedAt == secondRead
  {
    [Note(id, input.title, input.content, input.category, firstRead, secondRead)] + notes
  }

  /** With a fresh id, adding keeps ids unique. */
  lemma AddPreservesUniqueIds(notes: seq<Note>, input: NoteInput, id: string, firstRead: int, secondRead: int)
    requires UniqueIds(notes) && IdAbsent(notes, id)
    ensures UniqueIds(AddedNotes(notes, input, id, firstRead, secondRead))
  {
    var r := AddedNotes(notes, input, id, firstRead, secondRead);
    forall i, j | 0 <= i < j < |r| ensures r[i].id != r[j].id {
      assert r[j] == notes[j - 1];
      if i > 0 {
        assert r[i] == notes[i - 1];
      } else {
        assert notes[j - 1] in notes;
      }
    }
  }

  /** A clock that does not run backwards gives the new note
      `createdAt <= updatedAt`, and keeps that true of the whole collection. */
  lemma AddKeepsTimestampsOrdered(notes: seq<Note>, input: NoteInput, id: string, firstRead: int, secondRead: int)
    requires TimestampsOrdered(notes) && firstRead <= secondRead
    ensures TimestampsOrdered(AddedNotes(notes, input, id, firstRead, secondRead))
  {
    var r := AddedNotes(notes, input, id, firstRead, secondRead);
    assert r == [r[0]] + notes;
  }

  // ---------------------------------------------------------------------------
  // Updating a note

  /** `{ ...n, ...updates, updatedAt: now }`: the supplied fields replace the
      note's own, `id` and `createdAt` stay, `updatedAt` becomes `now`. */
  function Patched(n: Note, updates: NotePatch, now: int): (r: Note)
    ensures r.id == n.id && r.createdAt == n.createdAt && r.updatedAt == now
    ensures updates.title.Some? ==> r.title == updates.title.value
    ensures updates.title.None? ==> r.title == n.title
    ensures updates.content.Some? ==> r.content == updates.content.value
    ensures updates.content.None? ==> r.content == n.content
    ensures updates.category.Some? ==> r.category == updates.category.value
    ensures updates.category.None? ==> r.category == n.category
  {
    n.(title := updates.title.GetOr(n.title),
       content := updates.content.GetOr(n.content),
       category := updates.category.GetOr(n.category),
       updatedAt := now)
  }

  /** `notes.map(n => n.id === id ? { ...n, ...updates, updatedAt: Date.now() } : n)`.
      The callback reads the clock once for every note it rewrites, so
      `clock(i)` is the reading taken while position `i` is patched. */
  function UpdatedNotes(notes: seq<Note>, id: string, updates: NotePatch, clock: int -> int): (r: seq<Note>)
    ensures |r| == |notes|
    ensures forall i :: 0 <= i < |r| ==> r[i].id == notes[i].id && r[i].createdAt == notes[i].createdAt
    ensures forall i :: 0 <= i < |r| && notes[i].id != id ==> r[i] == notes[i]
    ensures forall i :: 0 <= i < |r| && notes[i].id == id ==> r[i].updatedAt == clock(i)
  {
    var r := seq(|notes|, i requires 0 <= i < |notes| => if notes[i].id == id then Patched(notes[i], updates, clock(i)) else notes[i]);
    assert forall i :: 0 <= i < |r| && notes[i].id == id ==> r[i] == Patched(notes[i], updates, clock(i));
    r
  }

  /** An update of an id that no note has is not an error: nothing changes
      and the clock is never read. */
  lemma UpdateAbsentIsNoOp(notes: seq<Note>, id: string, updates: NotePatch, clock: int -> int)
    requires IdAbsent(notes, id)
    ensures UpdatedNotes(notes, id, updates, clock) == notes
  {
    var r := UpdatedNotes(notes, id, updates, clock);
    forall i | 0 <= i < |notes| ensures r[i] == notes[i] {
      assert notes[i] in notes;
    }
  }

  /** The note that is updated gets exactly the patched fields, stamped with
      the reading taken at its position. */
  lemma UpdateRewritesMatch(notes: seq<Note>, id: string, updates: NotePatch, clock: int -> int, i: int)
    requires 0 <= i < |notes| && notes[i].id == id
    ensures UpdatedNotes(notes, id, updates, clock)[i] == Patched(notes[i], updates, clock(i))
  {
  }

  /** Updating keeps ids unique. */
  lemma UpdatePreservesUniqueIds(notes: seq<Note>, id: string, updates: NotePatch, clock: int -> int)
    requires UniqueIds(notes)
    ensures UniqueIds(UpdatedNotes(notes, id, updates, clock))
  {
  }

  /** An update whose clock readings are no earlier than the creation times of
      the notes they stamp keeps `createdAt <= updatedAt`. */
  lemma UpdateKeepsTimestampsOrdered(notes: seq<Note>, id: string, updates: NotePatch, clock: int -> int)
    requires TimestampsOrdered(notes)
    requires forall i :: 0 <= i < |notes| && notes[i].id == id ==> notes[i].createdAt <= clock(i)
    ensures TimestampsOrdered(UpdatedNotes(notes, id, updates, clock))
  {
    var r := UpdatedNotes(notes, id, updates, clock);
    forall n | n in r ensures n.createdAt <= n.updatedAt {
      var i :| 0 <= i < |r| && r[i] == n;
      assert notes[i] in notes;
    }
  }

  // ---------------------------------------------------------------------------
  // Deleting a note

  /** The predicate `n => n.id !== id`. */
  function IdOtherThan(id: string): (keep: Note -> bool)
    ensures forall n: Note :: keep(n) <==> n.id != id
  {
    (n: Note) => n.id != id
  }

  /** `notes.filter(n => n.id !== id)`. */
  function DeletedNotes(notes: seq<Note>, id: string): (r: seq<Note>)
    ensures IdAbsent(r, id)
    ensures forall n :: n in notes && n.id != id ==> n in r
    ensures forall n :: n in r ==> n in notes
  {
    Filter(notes, IdOtherThan(id))
  }

  /** The notes that remain keep their relative order. */
  lemma DeleteKeepsOrder(notes: seq<Note>, id: string)
    ensures IsSubsequence(DeletedNotes(notes, id), notes)
  {
    FilterIsSubsequence(notes, IdOtherThan(id));
  }

  /** Every note with another id remains as many times as it was held; none
      with the id remains. */
  lemma DeleteKeepsEveryOccurrence(notes: seq<Note>, id: string)
    ensures forall n :: multiset(DeletedNotes(notes, id))[n] == if n.id != id then multiset(notes)[n] else 0
  {
    FilterKeepsEveryOccurrence(notes, IdOtherThan(id));
  }

  /** Deleting an id that no note has changes nothing. */
  lemma DeleteAbsentIsNoOp(notes: seq<Note>, id: string)
    requires IdAbsent(notes, id)
    ensures DeletedNotes(notes, id) == notes
  {
    FilterAllPass(notes, IdOtherThan(id));
  }

  /** Filtering keeps ids unique. */
  lemma {:induction false} FilterPreservesUniqueIds(notes: seq<Note>, p: Note -> bool)
    requires UniqueIds(notes)
    ensures UniqueIds(Filter(notes, p))
    decreases |notes|
  {
    if notes != [] {
      var tail := notes[1..];
      assert UniqueIds(tail) by {
        forall i, j | 0 <= i < j < |tail| ensures tail[i].id != tail[j].id {
          assert tail[i] == notes[i + 1] && tail[j] == notes[j + 1];
        }
      }
      FilterPreservesUniqueIds(tail, p);
      var rest := Filter(tail, p);
      if p(notes[0]) {
        var r := [notes[0]] + rest;
        assert IdAbsent(tail, notes[0].id) by {
          forall n | n in tail ensures n.id != notes[0].id {
            var k :| 0 <= k < |tail| && tail[k] == n;
            assert notes[k + 1] == n;
          }
        }
        forall i, j | 0 <= i < j < |r| ensures r[i].id != r[j].id {
          assert r[j] == rest[j - 1];
          if i > 0 {
            assert r[i] == rest[i - 1];
          } else {
            assert rest[j - 1] in rest;
          }
        }
      }
    }
  }

  /** Deleting keeps ids unique. */
  lemma DeletePreservesUniqueIds(notes: seq<Note>, id: string)
    requires UniqueIds(notes)
    ensures UniqueIds(DeletedNotes(notes, id))
  {
    FilterPreservesUniqueIds(notes, IdOtherThan(id));
  }

  // ---------------------------------------------------------------------------
  // The sorted view

  /** Newest first: `updatedAt` never increases along `s`. */
  predicate NonIncreasing(s: seq<Note>) {
    forall i, j :: 0 <= i < j < |s| ==> s[i].updatedAt >= s[j].updatedAt
  }

  /** Deleting notes from a newest-first sequence leaves it newest first. */
  lemma {:induction false} SubsequenceKeepsNonIncreasing(a: seq<Note>, b: seq<Note>)
    requires IsSubsequence(a, b) && NonIncreasing(b)
    ensures NonIncreasing(a)
    decreases |b|
  {
    if a != [] {
      assert NonIncreasing(b[1..]) by {
        forall i, j | 0 <= i < j < |b[1..]| ensures b[1..][i].updatedAt >= b[1..][j].updatedAt {
          assert b[1..][i] == b[i + 1] && b[1..][j] == b[j + 1];
        }
      }
      if a[0] == b[0] {
        SubsequenceKeepsNonIncreasing(a[1..], b[1..]);
        SubsequenceMembers(a[1..], b[1..]);
        forall i, j | 0 <= i < j < |a| ensures a[i].updatedAt >= a[j].updatedAt {
          assert a[j] == a[1..][j - 1];
          if i > 0 {
            assert a[i] == a[1..][i - 1];
          } else {
            assert a[j] in b[1..];
            var k :| 0 <= k < |b[1..]| && b[1..][k] == a[j];
            assert b[k + 1] == a[j];
          }
        }
      } else {
        SubsequenceKeepsNonIncreasing(a, b[1..]);
      }
    }
  }

  /** The predicate `n => n.updatedAt === t`. */
  function UpdatedAtIs(t: int): Note -> bool {
    (n: Note) => n.updatedAt == t
  }

  /** Places `n` in the newest-first sequence `sorted` ahead of every note that
      is not newer than it. */
  function InsertByRecency(n: Note, sorted: seq<Note>): (r: seq<Note>)
    ensures multiset(r) == multiset{n} + multiset(sorted)
    ensures NonIncreasing(sorted) ==> NonIncreasing(r)
    decreases |sorted|
  {
    if sorted == [] then [n]
    else if n.updatedAt >= sorted[0].updatedAt then [n] + sorted
    else
      var rest := InsertByRecency(n, sorted[1..]);
      assert sorted == [sorted[0]] + sorted[1..];
      PrependKeepsNonIncreasing(sorted[0], n, sorted[1..], rest);
      [sorted[0]] + rest
  }

  /** Putting a note in front of `rest` keeps it newest first when that note is
      at least as new as `n` and every note of `tail`, and `rest` holds just
      those notes. */
  lemma PrependKeepsNonIncreasing(h: Note, n: Note, tail: seq<Note>, rest: seq<Note>)
    requires multiset(rest) == multiset{n} + multiset(tail)
    requires n.updatedAt <= h.updatedAt
    requires NonIncreasing([h] + tail) ==> NonIncreasing(rest)
    ensures NonIncreasing([h] + tail) ==> NonIncreasing([h] + rest)
  {
    if NonIncreasing([h] + tail) {
      var r := [h] + rest;
      forall i, j | 0 <= i < j < |r| ensures r[i].updatedAt >= r[j].updatedAt {
        if i == 0 {
          var x := rest[j - 1];
          assert r[0] == h && r[j] == x;
          assert x in multiset(rest);
          if x != n {
            assert x in multiset(tail);
            assert x in tail;
            var k :| 0 <= k < |tail| && tail[k] == x;
            var ht := [h] + tail;
            assert ht[0] == h && ht[k + 1] == x;
            assert ht[0].updatedAt >= ht[k + 1].updatedAt;
          }
          assert h.updatedAt >= x.updatedAt;
        } else {
          assert r[i] == rest[i - 1] && r[j] == rest[j - 1];
        }
      }
    }
  }

  /** `notes.sort((a, b) => b.updatedAt - a.updatedAt)` as a copy: a stable
      sort, newest first. */
  function SortByRecency(notes: seq<Note>): (r: seq<Note>)
    ensures multiset(r) == multiset(notes)
    ensures NonIncreasing(r)
    decreases |notes|
  {
    if notes == [] then []
    else
      assert notes == [notes[0]] + notes[1..];
      InsertByRecency(notes[0], SortByRecency(notes[1..]))
  }

  /** Inserting `n` leaves the notes with any one timestamp in the order they
      have in `[n] + sorted`. */
  lemma {:induction false} InsertKeepsTies(n: Note, sorted: seq<Note>, t: int)
    requires NonIncreasing(sorted)
    ensures Filter(InsertByRecency(n, sorted), UpdatedAtIs(t)) == Filter([n] + sorted, UpdatedAtIs(t))
    decreases |sorted|
  {
    var p := UpdatedAtIs(t);
    if sorted != [] && n.updatedAt < sorted[0].updatedAt {
      var h, tail := sorted[0], sorted[1..];
      assert sorted == [h] + tail;
      assert NonIncreasing(tail);
      FilterSingleton(h, p);
      FilterSingleton(n, p);
      var fh, fn := Filter([h], p), Filter([n], p);
      // n and h have different timestamps, so at most one of them is kept
      assert fh == [] || fn == [];
      assert InsertByRecency(n, sorted) == [h] + InsertByRecency(n, tail);
      var ins, ft := InsertByRecency(n, tail), Filter(tail, p);
      FilterAppend([h], ins, p);
      InsertKeepsTies(n, tail, t);
      FilterAppend([n], tail, p);
      assert Filter(InsertByRecency(n, sorted), p) == fh + (fn + ft);
      FilterAppend([h], tail, p);
      FilterAppend([n], sorted, p);
      assert Filter([n] + sorted, p) == fn + (fh + ft);
      SwapWhenOneEmpty(fh, fn, ft);
    }
  }

  /** The sort is stable: notes with equal `updatedAt` keep their relative order. */
  lemma {:induction false} SortIsStable(notes: seq<Note>, t: int)
    ensures Filter(SortByRecency(notes), UpdatedAtIs(t)) == Filter(notes, UpdatedAtIs(t))
    decreases |notes|
  {
    if notes != [] {
      var p := UpdatedAtIs(t);
      SortIsStable(notes[1..], t);
      InsertKeepsTies(notes[0], SortByRecency(notes[1..]), t);
      FilterAppend([notes[0]], SortByRecency(notes[1..]), p);
      FilterAppend([notes[0]], notes[1..], p);
      assert notes == [notes[0]] + notes[1..];
    }
  }

  /** `SortIsStable` for every timestamp at once. */
  lemma SortIsStableForAll(notes: seq<Note>)
    ensures forall t :: Filter(SortByRecency(notes), UpdatedAtIs(t)) == Filter(notes, UpdatedAtIs(t))
  {
    forall t ensures Filter(SortByRecency(notes), UpdatedAtIs(t)) == Filter(notes, UpdatedAtIs(t)) {
      SortIsStable(notes, t);
    }
  }

  /** Sequences that agree on the notes of every timestamp hold the same notes. */
  lemma SameTiesSameMembers(a: seq<Note>, b: seq<Note>)
    requires forall t :: Filter(a, UpdatedAtIs(t)) == Filter(b, UpdatedAtIs(t))
    ensures forall x :: x in a <==> x in b
  {
    forall x ensures x in a <==> x in b {
      assert x in a <==> x in Filter(a, UpdatedAtIs(x.updatedAt));
      assert x in b <==> x in Filter(b, UpdatedAtIs(x.updatedAt));
    }
  }

  /** Two newest-first sequences that agree on every timestamp's notes start
      with the same note, and their tails agree on every timestamp's notes. */
  lemma SameHeadSameTies(a: seq<Note>, b: seq<Note>)
    requires a != [] && b != [] && NonIncreasing(a) && NonIncreasing(b)
    requires forall t :: Filter(a, UpdatedAtIs(t)) == Filter(b, UpdatedAtIs(t))
    ensures a[0] == b[0]
    ensures forall t :: Filter(a[1..], UpdatedAtIs(t)) == Filter(b[1..], UpdatedAtIs(t))
  {
    SameTiesSameMembers(a, b);
    assert a[0] in b && b[0] in a;
    var k :| 0 <= k < |a| && a[k] == b[0];
    var m :| 0 <= m < |b| && b[m] == a[0];
    assert k > 0 ==> a[0].updatedAt >= a[k].updatedAt;
    assert m > 0 ==> b[0].updatedAt >= b[m].updatedAt;
    var top := a[0].updatedAt;
    var p := UpdatedAtIs(top);
    FilterHead(a, p);
    FilterHead(b, p);
    assert a[0] == Filter(a, p)[0] == Filter(b, p)[0] == b[0];
    forall t ensures Filter(a[1..], UpdatedAtIs(t)) == Filter(b[1..], UpdatedAtIs(t)) {
      FilterHead(a, UpdatedAtIs(t));
      FilterHead(b, UpdatedAtIs(t));
      if t == top {
        assert Filter(a[1..], UpdatedAtIs(t)) == Filter(a, UpdatedAtIs(t))[1..];
      }
    }
  }

  /** Newest first plus ties in a given order leaves one possible sequence. */
  lemma {:induction false} StableOrderIsUnique(a: seq<Note>, b: seq<Note>)
    requires NonIncreasing(a) && NonIncreasing(b)
    requires forall t :: Filter(a, UpdatedAtIs(t)) == Filter(b, UpdatedAtIs(t))
    ensures a == b
    decreases |a|
  {
    SameTiesSameMembers(a, b);
    assert a != [] ==> a[0] in b;
    assert b != [] ==> b[0] in a;
    if a != [] && b != [] {
      SameHeadSameTies(a, b);
      NonIncreasingTail(a);
      NonIncreasingTail(b);
      StableOrderIsUnique(a[1..], b[1..]);
      assert a == [a[0]] + a[1..] && b == [b[0]] + b[1..];
    }
  }

  lemma NonIncreasingTail(s: seq<Note>)
    requires s != [] && NonIncreasing(s)
    ensures NonIncreasing(s[1..])
  {
    forall i, j | 0 <= i < j < |s| - 1 ensures s[1..][i].updatedAt >= s[1..][j].updatedAt {
      assert s[1..][i] == s[i + 1] && s[1..][j] == s[j + 1];
    }
  }

  /** Any newest-first ordering of `notes` that keeps ties in storage order,
      which is what a stable `Array.prototype.sort` with this comparator
      produces, is `SortByRecency(notes)`. */
  lemma StableSortIsSortByRecency(notes: seq<Note>, sorted: seq<Note>)
    requires NonIncreasing(sorted)
    requires forall t :: Filter(sorted, UpdatedAtIs(t)) == Filter(notes, UpdatedAtIs(t))
    ensures sorted == SortByRecency(notes)
  {
    SortIsStableForAll(notes);
    StableOrderIsUnique(sorted, SortByRecency(notes));
  }

  /** A note added with a clock reading no earlier than any stored `updatedAt`
      heads the sorted view. */
  lemma AddedNoteLeadsView(notes: seq<Note>, input: NoteInput, id: string, firstRead: int, secondRead: int)
    requires forall n :: n in notes ==> n.updatedAt <= secondRead
    ensures SortByRecency(AddedNotes(notes, input, id, firstRead, secondRead))[0]
         == AddedNotes(notes, input, id, firstRead, secondRead)[0]
  {
    var r := AddedNotes(notes, input, id, firstRead, secondRead);
    assert r == [r[0]] + notes;
    assert r[1..] == notes;
    var rest := SortByRecency(notes);
    if rest != [] {
      assert rest[0] in multiset(notes);
    }
  }

  // ---------------------------------------------------------------------------
  // Seed data

  const WelcomeTitle := "Selamat Datang!"
  const WelcomeContent := "Ini adalah aplikasi catatan sederhana. Anda bisa membuat, mengubah, dan menghapus catatan. Data tersimpan di browser Anda."
  const IdeaTitle := "Ide Proyek Baru"
  const IdeaContent := "Membuat aplikasi AI menggunakan Gemini API dan Angular terbaru."

  /** How much older the second seed note is, in milliseconds. */
  const SeedOffset := 100000

  /** The two seed notes; `t1` to `t4` are the four clock readings taken, in
      order, for their four timestamp fields. */
  function DefaultNotes(t1: int, t2: int, t3: int, t4: int): (r: seq<Note>)
    ensures |r| == 2 && UniqueIds(r)
    ensures r[0].id == "1" && r[0].category == Personal && r[0].title == WelcomeTitle && r[0].content == WelcomeContent
    ensures r[1].id == "2" && r[1].category == Idea && r[1].title == IdeaTitle && r[1].content == IdeaContent
    ensures r[0].createdAt == t1 && r[0].updatedAt == t2
    ensures r[1].createdAt == t3 - SeedOffset && r[1].updatedAt == t4 - SeedOffset
    ensures t1 <= t2 && t3 <= t4 ==> TimestampsOrdered(r)
  {
    [ Note("1", WelcomeTitle, WelcomeContent, Personal, t1, t2),
      Note("2", IdeaTitle, IdeaContent, Idea, t3 - SeedOffset, t4 - SeedOffset) ]
  }

  /** Under a clock that stands still, each seed note has `createdAt == updatedAt`,
      note "2" is `SeedOffset` ms older than note "1", and the sorted view lists
      note "1" first. */
  lemma DefaultsUnderFixedClock(now: int)
    ensures var r := DefaultNotes(now, now, now, now);
      && r[0].createdAt == r[0].updatedAt == now
      && r[1].createdAt == r[1].updatedAt == now - SeedOffset
      && SortByRecency(r) == r
  {
    var r := DefaultNotes(now, now, now, now);
    assert r[1..] == [r[1]];
    assert SortByRecency([r[1]]) == [r[1]];
  }

  /** The collection `loadNotes` ends with: the parsed stored value when it is
      present, non-empty and parses, and the seed notes otherwise. `parse` stands
      for `JSON.parse`, `None` for a parse that throws. */
  function LoadedNotes(saved: Option<string>, parse: string -> Option<seq<Note>>,
                       t1: int, t2: int, t3: int, t4: int): (r: seq<Note>)
    ensures saved.None? || saved.value == "" ==> r == DefaultNotes(t1, t2, t3, t4)
    ensures saved.Some? && saved.value != "" && parse(saved.value).None? ==> r == DefaultNotes(t1, t2, t3, t4)
    ensures saved.Some? && saved.value != "" && parse(saved.value).Some? ==> r == parse(saved.value).value
  {
    if saved.Some? && saved.value != "" then
      match parse(saved.value)
      case Some(parsed) => parsed
      case None => DefaultNotes(t1, t2, t3, t4)
    else
      DefaultNotes(t1, t2, t3, t4)
  }

  // ---------------------------------------------------------------------------
  // The service

  class NoteService {
    /** The authoritative collection, in storage order. */
    var notesSignal: seq<Note>

    /** Constructing the service loads the stored notes. */
    constructor (saved: Option<string>, parse: string -> Option<seq<Note>>,
                 t1: int, t2: int, t3: int, t4: int)
      ensures notesSignal == LoadedNotes(saved, parse, t1, t2, t3, t4)
    {
      notesSignal := [];
      new;
      LoadNotes(saved, parse, t1, t2, t3, t4);
    }

    /** The collection sorted newest first: a permutation of it, non-increasing
        in `updatedAt`, with ties in storage order. */
    function Notes(): (view: seq<Note>)
      reads this
      ensures multiset(view) == multiset(notesSignal)
      ensures NonIncreasing(view)
      ensures forall t :: Filter(view, UpdatedAtIs(t)) == Filter(notesSignal, UpdatedAtIs(t))
    {
      SortIsStableForAll(notesSignal);
      SortByRecency(notesSignal)
    }

    /** Reads the stored value; falls back to the seeds when it is absent, empty
        or does not parse. */
    method LoadNotes(saved: Option<string>, parse: string -> Option<seq<Note>>,
                     t1: int, t2: int, t3: int, t4: int)
      modifies this
      ensures notesSignal == LoadedNotes(saved, parse, t1, t2, t3, t4)
    {
      if saved.Some? && saved.value != "" {
        var parsed := parse(saved.value);
        if parsed.Some? {
          notesSignal := parsed.value;
        } else {
          InitializeDefaultData(t1, t2, t3, t4);
        }
      } else {
        InitializeDefaultData(t1, t2, t3, t4);
      }
    }

    /** Replaces the collection with the two seed notes. */
    method InitializeDefaultData(t1: int, t2: int, t3: int, t4: int)
      modifies this
      ensures notesSignal == DefaultNotes(t1, t2, t3, t4)
    {
      notesSignal := DefaultNotes(t1, t2, t3, t4);
    }

    /** Prepends a new note. `freshId` is what the id generator returned, and
        `firstRead`, `secondRead` the two clock readings. */
    method AddNote(note: NoteInput, freshId: string, firstRead: int, secondRead: int)
      requires IdAbsent(notesSignal, freshId)
      modifies this
      ensures notesSignal == AddedNotes(old(notesSignal), note, freshId, firstRead, secondRead)
      ensures UniqueIds(old(notesSignal)) ==> UniqueIds(notesSignal)
    {
      if UniqueIds(notesSignal) {
        AddPreservesUniqueIds(notesSignal, note, freshId, firstRead, secondRead);
      }
      notesSignal := AddedNotes(notesSignal, note, freshId, firstRead, secondRead);
    }

    /** Rewrites every note with this id, stamping each with its own clock
        reading; if no note has the id, nothing changes. */
    method UpdateNote(id: string, updates: NotePatch, clock: int -> int)
      modifies this
      ensures notesSignal == UpdatedNotes(old(notesSignal), id, updates, clock)
      ensures UniqueIds(old(notesSignal)) ==> UniqueIds(notesSignal)
      ensures IdAbsent(old(notesSignal), id) ==> notesSignal == old(notesSignal)
    {
      if IdAbsent(notesSignal, id) {
        UpdateAbsentIsNoOp(notesSignal, id, updates, clock);
      }
      notesSignal := UpdatedNotes(notesSignal, id, updates, clock);
    }

    /** Removes every note with this id. */
    method DeleteNote(id: string)
      modifies this
      ensures notesSignal == DeletedNotes(old(notesSignal), id)
      ensures IdAbsent(notesSignal, id)
      ensures IsSubsequence(notesSignal, old(notesSignal))
      ensures UniqueIds(old(notesSignal)) ==> UniqueIds(notesSignal)
      ensures IdAbsent(old(notesSignal), id) ==> notesSignal == old(notesSignal)
    {
      DeleteKeepsOrder(notesSignal, id);
      if UniqueIds(notesSignal) {
        DeletePreservesUniqueIds(notesSignal, id);
      }
      if IdAbsent(notesSignal, id) {
        DeleteAbsentIsNoOp(notesSignal, id);
      }
      notesSignal := DeletedNotes(notesSignal, id);
    }
  }
}
