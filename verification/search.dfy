/** The search filter (`filteredNotes`): a note is shown when the lower-cased
    search term occurs in its lower-cased title, content or raw tags string;
    the notes shown keep the order of the note list. */
module Search {
  import opened Text
  import opened Notes

  /** The filter's test for one note. */
  predicate Matches(n: Note, term: string) {
    var q := ToLower(term);
    Includes(ToLower(n.title), q) || Includes(ToLower(n.content), q) ||
    Includes(ToLower(n.tags), q)
  }

  /** `Array.prototype.filter`: the elements `keep` accepts, in order. */
  function Keep<T>(s: seq<T>, keep: T -> bool): seq<T>
  {
    if s == [] then []
    else (if keep(s[0]) then [s[0]] else []) + Keep(s[1..], keep)
  }

  /** `notes.filter(note => ...)` with the search test. */
  function Filter(notes: seq<Note>, term: string): seq<Note>
  {
    Keep(notes, n => Matches(n, term))
  }

  /** `sub` can be obtained from `s` by deleting elements: the elements of
      `sub` appear in `s` in the same relative order. */
  predicate IsSubsequence<T(==)>(sub: seq<T>, s: seq<T>)
    decreases |s|
  {
    if s == [] then sub == []
    else IsSubsequence(sub, s[1..]) ||
         (sub != [] && sub[0] == s[0] && IsSubsequence(sub[1..], s[1..]))
  }

  lemma {:induction false} KeepIsSubsequence<T>(s: seq<T>, keep: T -> bool)
    ensures IsSubsequence(Keep(s, keep), s)
  {
    if s != [] {
      KeepIsSubsequence(s[1..], keep);
      var r := Keep(s, keep);
      var rest := Keep(s[1..], keep);
      if keep(s[0]) {
        assert r == [s[0]] + rest;
        assert r[0] == s[0] && r[1..] == rest;
      } else {
        assert r == rest;
      }
    }
  }

  lemma {:induction false} KeepCounts<T>(s: seq<T>, keep: T -> bool, x: T)
    ensures multiset(Keep(s, keep))[x] == if keep(x) then multiset(s)[x] else 0
  {
    if s != [] {
      KeepCounts(s[1..], keep, x);
      assert s == [s[0]] + s[1..];
    }
  }

  lemma {:induction false} KeepAppend<T>(a: seq<T>, b: seq<T>, keep: T -> bool)
    ensures Keep(a + b, keep) == Keep(a, keep) + Keep(b, keep)
  {
    if a == [] {
      assert a + b == b;
    } else {
      KeepAppend(a[1..], b, keep);
      var head := if keep(a[0]) then [a[0]] else [];
      assert (a + b)[1..] == a[1..] + b;
      assert (a + b)[0] == a[0];
      assert head + (Keep(a[1..], keep) + Keep(b, keep)) ==
             (head + Keep(a[1..], keep)) + Keep(b, keep);
    }
  }

  lemma {:induction false} KeepAll<T>(s: seq<T>, keep: T -> bool)
    requires forall k :: 0 <= k < |s| ==> keep(s[k])
    ensures Keep(s, keep) == s
  {
    if s != [] {
      KeepAll(s[1..], keep);
      assert s == [s[0]] + s[1..];
    }
  }

  lemma {:induction false} KeepSameTest<T>(s: seq<T>, p: T -> bool, q: T -> bool)
    requires forall x :: p(x) == q(x)
    ensures Keep(s, p) == Keep(s, q)
  {
    if s != [] {
      KeepSameTest(s[1..], p, q);
    }
  }

  lemma {:induction false} KeepIdempotent<T>(s: seq<T>, keep: T -> bool)
    ensures Keep(Keep(s, keep), keep) == Keep(s, keep)
  {
    if s != [] {
      KeepIdempotent(s[1..], keep);
      var head := if keep(s[0]) then [s[0]] else [];
      KeepAppend(head, Keep(s[1..], keep), keep);
    }
  }

  /** The filtered list is a subsequence of the note list: original relative
      order is kept. */
  lemma FilterIsSubsequence(notes: seq<Note>, term: string)
    ensures IsSubsequence(Filter(notes, term), notes)
  {
    KeepIsSubsequence(notes, n => Matches(n, term));
  }

  /** A note is kept exactly when it matches, and as often as it occurs: every
      matching note keeps all its occurrences and every other note has none. */
  lemma FilterCounts(notes: seq<Note>, term: string, n: Note)
    ensures multiset(Filter(notes, term))[n] == if Matches(n, term) then multiset(notes)[n] else 0
  {
    KeepCounts(notes, x => Matches(x, term), n);
  }

  /** A note is in the filtered list exactly when it is in the note list and
      matches the term. */
  lemma FilterMembership(notes: seq<Note>, term: string, n: Note)
    ensures n in Filter(notes, term) <==> n in notes && Matches(n, term)
  {
    FilterCounts(notes, term, n);
  }

  /** Filtering a concatenation filters each part: the relative order of the
      two parts is kept. */
  lemma FilterAppend(a: seq<Note>, b: seq<Note>, term: string)
    ensures Filter(a + b, term) == Filter(a, term) + Filter(b, term)
  {
    KeepAppend(a, b, n => Matches(n, term));
  }

  /** An empty search term keeps every note, unchanged and in order. */
  lemma FilterEmptyTerm(notes: seq<Note>)
    ensures Filter(notes, "") == notes
  {
    assert ToLower("") == "";
    forall k | 0 <= k < |notes| ensures Matches(notes[k], "") {
      IncludesEmpty(ToLower(notes[k].title));
    }
    KeepAll(notes, n => Matches(n, ""));
  }

  /** The search is case-insensitive in the term: a term and its lower-cased
      form select the same notes. */
  lemma FilterIgnoresTermCase(notes: seq<Note>, term: string)
    ensures Filter(notes, term) == Filter(notes, ToLower(term))
  {
    ToLowerIdempotent(term);
    assert forall n :: Matches(n, term) == Matches(n, ToLower(term));
    KeepSameTest(notes, n => Matches(n, term), n => Matches(n, ToLower(term)));
  }

  /** Filtering what was already filtered by the same term changes nothing. */
  lemma FilterIdempotent(notes: seq<Note>, term: string)
    ensures Filter(Filter(notes, term), term) == Filter(notes, term)
  {
    KeepIdempotent(notes, n => Matches(n, term));
  }
}
