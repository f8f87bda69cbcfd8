/**
 * The search history kept in the extension's global state (src/utils/history.ts).
 * The list is most-recent-first, free of duplicates and at most MaxHistory long;
 * AddTerm is the whole update rule, HistoryStore the one storage slot.
 */
module History {
  import opened Options
  import opened Sequences

  /** MAX_HISTORY: the number of terms kept. */
  const MaxHistory: nat := 20

  predicate NoDuplicates(s: seq<string>) {
    forall i, j :: 0 <= i < j < |s| ==> s[i] != s[j]
  }

  /** `history.filter(h => h !== term)`: every entry except the copies of `term`, in order. */
  function Without(history: seq<string>, term: string): (r: seq<string>)
    ensures forall x :: x in r <==> x in history && x != term
    ensures |r| == |history| - multiset(history)[term]
  {
    if history == [] then []
    else
      assert history == [history[0]] + history[1..];
      if history[0] == term then Without(history[1..], term)
      else [history[0]] + Without(history[1..], term)
  }

  /** `[term, ...history.filter(h => h !== term)].slice(0, MAX_HISTORY)` */
  function AddTerm(history: seq<string>, term: string): (r: seq<string>)
    ensures 1 <= |r| <= MaxHistory
    ensures r[0] == term
    ensures forall i :: 1 <= i < |r| ==> r[i] != term
    ensures forall x :: x in r ==> x == term || x in history
  {
    var rest := Without(history, term);
    var moved := [term] + rest;
    assert term !in rest;
    assert forall i :: 1 <= i < |moved| ==> moved[i] == rest[i - 1];
    Cap(moved)
  }

  /** `.slice(0, MAX_HISTORY)`: the first MaxHistory entries. */
  function Cap(s: seq<string>): (r: seq<string>)
    ensures |r| == Min(|s|, MaxHistory) && r == s[..|r|]
  {
    if |s| <= MaxHistory then s else s[..MaxHistory]
  }

  /** The old entries that survive the cap are the newest ones: the first entries of the
      filtered list, which is most-recent-first like the list it filters. */
  lemma AddTermKeepsNewest(history: seq<string>, term: string)
    ensures AddTerm(history, term)[1..] == Without(history, term)[..|AddTerm(history, term)| - 1]
  {
    var w := Without(history, term);
    assert ([term] + w)[1..] == w;
  }

  /** The new list holds `term` exactly once. */
  lemma AddTermOnce(history: seq<string>, term: string)
    ensures multiset(AddTerm(history, term))[term] == 1
  {
    var r := AddTerm(history, term);
    assert r == [term] + r[1..];
    assert term !in r[1..];
  }

  /** The entries other than `term` come from the old list and keep their relative order. */
  lemma AddTermKeepsOrder(history: seq<string>, term: string)
    ensures IsSubsequence(AddTerm(history, term)[1..], history)
  {
    var w := Without(history, term);
    WithoutIsSubsequence(history, term);
    SubsequencePrefix(w, history, |AddTerm(history, term)| - 1);
    assert AddTerm(history, term)[1..] == w[..|AddTerm(history, term)| - 1];
  }

  lemma {:induction false} WithoutIsSubsequence(history: seq<string>, term: string)
    ensures IsSubsequence(Without(history, term), history)
  {
    if history != [] {
      WithoutIsSubsequence(history[1..], term);
      if history[0] == term {
        SubsequenceOfTail(Without(history[1..], term), history);
      } else {
        assert Without(history, term)[1..] == Without(history[1..], term);
      }
    }
  }

  /** Nothing but `term`'s old copies is dropped while the list has room. */
  lemma AddTermKeepsAllWhenRoom(history: seq<string>, term: string)
    requires |history| - multiset(history)[term] < MaxHistory
    ensures forall x :: x in history ==> x in AddTerm(history, term)
  {
  }

  /** The length of the new list: one more than the entries other than `term`, capped at MaxHistory. */
  lemma AddTermLength(history: seq<string>, term: string)
    ensures |AddTerm(history, term)| == Min(1 + |history| - multiset(history)[term], MaxHistory)
  {
  }

  function Min(a: int, b: int): int { if a <= b then a else b }

  /** A list without duplicates holds each term at most once. */
  lemma {:induction false} NoDuplicatesCount(s: seq<string>, x: string)
    requires NoDuplicates(s)
    ensures multiset(s)[x] == if x in s then 1 else 0
  {
    if s != [] {
      assert s == [s[0]] + s[1..];
      NoDuplicatesCount(s[1..], x);
    }
  }

  /** Re-adding a term already present in a duplicate-free list of at most MaxHistory entries keeps the length. */
  lemma AddPresentTermKeepsLength(history: seq<string>, term: string)
    requires NoDuplicates(history) && term in history && |history| <= MaxHistory
    ensures |AddTerm(history, term)| == |history|
  {
    NoDuplicatesCount(history, term);
  }

  /** Adding a new term grows the list by one, up to MaxHistory. */
  lemma AddAbsentTermLength(history: seq<string>, term: string)
    requires term !in history
    ensures |AddTerm(history, term)| == Min(|history| + 1, MaxHistory)
  {
    assert multiset(history)[term] == 0;
  }

  lemma {:induction false} WithoutNoDuplicates(history: seq<string>, term: string)
    requires NoDuplicates(history)
    ensures NoDuplicates(Without(history, term))
  {
    if history != [] {
      WithoutNoDuplicates(history[1..], term);
      assert history[0] !in history[1..];
    }
  }

  /** A duplicate-free history stays duplicate-free. */
  lemma AddTermNoDuplicates(history: seq<string>, term: string)
    requires NoDuplicates(history)
    ensures NoDuplicates(AddTerm(history, term))
  {
    WithoutNoDuplicates(history, term);
  }

  lemma {:induction false} WithoutAbsent(history: seq<string>, term: string)
    requires term !in history
    ensures Without(history, term) == history
  {
    if history != [] {
      WithoutAbsent(history[1..], term);
      assert history == [history[0]] + history[1..];
    }
  }

  /** Searching the same term twice in a row leaves the history as searching it once. */
  lemma AddTermIdempotent(history: seq<string>, term: string)
    ensures AddTerm(AddTerm(history, term), term) == AddTerm(history, term)
  {
    var r := AddTerm(history, term);
    assert r == [r[0]] + r[1..];
    WithoutAbsent(r[1..], term);
    assert Without(r, term) == r[1..];
  }

  /** The history after searching each of `terms` in turn. */
  function AddAll(history: seq<string>, terms: seq<string>): seq<string>
    decreases |terms|
  {
    if terms == [] then history else AddAll(AddTerm(history, terms[0]), terms[1..])
  }

  /** After any number of searches from a valid history, the list is bounded, duplicate-free,
      starts with the latest term, and is the whole of Recent: most-recent-first throughout. */
  lemma {:induction false} AddAllInvariant(history: seq<string>, terms: seq<string>)
    requires NoDuplicates(history) && |history| <= MaxHistory
    ensures var r := AddAll(history, terms);
      && NoDuplicates(r) && |r| <= MaxHistory && (terms != [] ==> r != [] && r[0] == terms[|terms| - 1])
      && r == Recent(history, terms)
    decreases |terms|
  {
    AddAllRecent(history, terms);
    if terms != [] {
      AddTermNoDuplicates(history, terms[0]);
      AddAllInvariant(AddTerm(history, terms[0]), terms[1..]);
    }
  }

  /** Every term of `terms` searched in turn, the newest first, then the history searched before. */
  function NewestFirst(history: seq<string>, terms: seq<string>): seq<string>
  {
    if terms == [] then history else [terms[|terms| - 1]] + NewestFirst(history, terms[..|terms| - 1])
  }

  /** The entries of `s` with every repeat after the first occurrence dropped. */
  function Dedup(s: seq<string>): (r: seq<string>)
    ensures NoDuplicates(r)
    ensures forall x :: x in r <==> x in s
  {
    if s == [] then []
    else
      var rest := Dedup(s[1..]);
      var w := Without(rest, s[0]);
      WithoutNoDuplicates(rest, s[0]);
      ConsNoDuplicates(s[0], w);
      assert s == [s[0]] + s[1..];
      [s[0]] + w
  }

  lemma ConsNoDuplicates(x: string, s: seq<string>)
    requires x !in s && NoDuplicates(s)
    ensures NoDuplicates([x] + s)
  {
    var r := [x] + s;
    forall i, j | 0 <= i < j < |r| ensures r[i] != r[j] {
      assert r[j] == s[j - 1];
      if i > 0 {
        assert r[i] == s[i - 1];
      }
    }
  }

  /** The history a user should see after searching `terms` in order: the most recent search
      of each term, newest first, then the older entries, at most MaxHistory of them. */
  function Recent(history: seq<string>, terms: seq<string>): seq<string> {
    Cap(Dedup(NewestFirst(history, terms)))
  }

  /** A list without duplicates is its own Dedup. */
  lemma {:induction false} DedupNoDuplicates(s: seq<string>)
    requires NoDuplicates(s)
    ensures Dedup(s) == s
  {
    if s != [] {
      assert NoDuplicates(s[1..]) by {
        forall i, j | 0 <= i < j < |s| - 1 ensures s[1..][i] != s[1..][j] {
          assert s[1..][i] == s[i + 1] && s[1..][j] == s[j + 1];
        }
      }
      DedupNoDuplicates(s[1..]);
      assert s[0] !in s[1..];
      WithoutAbsent(s[1..], s[0]);
      assert s == [s[0]] + s[1..];
    }
  }

  /** Searching the terms one by one: the last search is an AddTerm on the history before it. */
  lemma {:induction false} AddAllLast(history: seq<string>, terms: seq<string>)
    requires terms != []
    ensures AddAll(history, terms) == AddTerm(AddAll(history, terms[..|terms| - 1]), terms[|terms| - 1])
    decreases |terms|
  {
    var n := |terms|;
    if n > 1 {
      var next := AddTerm(history, terms[0]);
      AddAllLast(next, terms[1..]);
      assert terms[1..][..n - 2] == terms[..n - 1][1..];
      assert terms[..n - 1][0] == terms[0];
    } else {
      assert terms[1..] == [];
    }
  }

  lemma {:induction false} WithoutAppend(a: seq<string>, b: seq<string>, term: string)
    ensures Without(a + b, term) == Without(a, term) + Without(b, term)
  {
    if a == [] {
      assert a + b == b;
    } else {
      assert (a + b)[1..] == a[1..] + b;
      WithoutAppend(a[1..], b, term);
    }
  }

  /** Capping before the filter keeps the same first MaxHistory entries as capping after it,
      because the filter removes at most one entry of a duplicate-free list. */
  lemma CapWithout(d: seq<string>, term: string)
    requires NoDuplicates(d)
    ensures Cap([term] + Without(Cap(d), term)) == Cap([term] + Without(d, term))
  {
    if |d| > MaxHistory {
      var p, q := d[..MaxHistory], d[MaxHistory..];
      assert |Without(p, term)| >= MaxHistory - 1 by {
        assert NoDuplicates(p) by {
          forall i, j | 0 <= i < j < |p| ensures p[i] != p[j] {
            assert p[i] == d[i] && p[j] == d[j];
          }
        }
        NoDuplicatesCount(p, term);
      }
      assert Without(d, term) == Without(p, term) + Without(q, term) by {
        assert d == p + q;
        WithoutAppend(p, q, term);
      }
      var a, b := [term] + Without(p, term), Without(q, term);
      assert [term] + Without(d, term) == a + b;
      assert (a + b)[..MaxHistory] == a[..MaxHistory];
    }
  }

  /** Searching `terms` in turn from a valid history gives exactly Recent. */
  lemma {:induction false} AddAllRecent(history: seq<string>, terms: seq<string>)
    requires NoDuplicates(history) && |history| <= MaxHistory
    ensures AddAll(history, terms) == Recent(history, terms)
    decreases |terms|
  {
    if terms == [] {
      DedupNoDuplicates(history);
    } else {
      var n := |terms|;
      var before, t := terms[..n - 1], terms[n - 1];
      AddAllLast(history, terms);
      AddAllRecent(history, before);
      var d := Dedup(NewestFirst(history, before));
      CapWithout(d, t);
      assert ([t] + NewestFirst(history, before))[1..] == NewestFirst(history, before);
    }
  }

  /**
   * `context.globalState` restricted to the HISTORY_KEY slot. The slot is None until
   * something has been stored under that key.
   */
  class HistoryStore {
    var slot: Option<seq<string>>

    constructor ()
      ensures slot == None
      ensures Valid()
    {
      slot := None;
    }

    /** The stored history is bounded and duplicate-free (true of every list AddSearchToHistory writes). */
    predicate Valid()
      reads this
    {
      var h := GetSearchHistory();
      NoDuplicates(h) && |h| <= MaxHistory
    }

    /** getSearchHistory: the stored list, or the empty list when nothing is stored. */
    function GetSearchHistory(): (h: seq<string>)
      reads this
      ensures slot.Some? ==> h == slot.value
      ensures slot.None? ==> h == []
    {
      match slot
      case Some(s) => s
      case None => []
    }

    /** addSearchToHistory: read the slot (empty by default) and replace it with the updated list. */
    method AddSearchToHistory(term: string)
      modifies this
      ensures slot == Some(AddTerm(old(GetSearchHistory()), term))
      ensures GetSearchHistory() != [] && GetSearchHistory()[0] == term
      ensures |GetSearchHistory()| <= MaxHistory
      ensures old(Valid()) ==> Valid()
    {
      var history := GetSearchHistory();
      if Valid() {
        AddTermNoDuplicates(history, term);
      }
      slot := Some(AddTerm(history, term));
    }
  }
}
