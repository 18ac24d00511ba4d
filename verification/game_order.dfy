/** The order in which `get_games` presents the library: favourites first,
    then by lower-cased name, keeping the stored order among equal keys
    (Python's `sorted` is stable). The sort is an insertion sort that
    inserts each record after every record whose key is not greater. */
module GameOrder {
  import opened Strings
  import opened Seqs
  import opened GameLibrary

  /** The sort key `(not favorite, name.lower())`. */
  datatype SortKey = SortKey(notFavorite: bool, lowerName: string)

  function Key(g: Game): SortKey {
    SortKey(!g.favorite, Lower(g.name))
  }

  /** Python's tuple order on keys: `False < True` first, then the names. */
  predicate KeyLe(a: SortKey, b: SortKey) {
    || (!a.notFavorite && b.notFavorite)
    || (a.notFavorite == b.notFavorite && LexLe(a.lowerName, b.lowerName))
  }

  lemma KeyLeReflexive(a: SortKey)
    ensures KeyLe(a, a)
  {
    LexLeReflexive(a.lowerName);
  }

  lemma KeyLeTotal(a: SortKey, b: SortKey)
    ensures KeyLe(a, b) || KeyLe(b, a)
  {
    LexLeTotal(a.lowerName, b.lowerName);
  }

  lemma KeyLeTransitive(a: SortKey, b: SortKey, c: SortKey)
    requires KeyLe(a, b) && KeyLe(b, c)
    ensures KeyLe(a, c)
  {
    if a.notFavorite == b.notFavorite == c.notFavorite {
      LexLeTransitive(a.lowerName, b.lowerName, c.lowerName);
    }
  }

  lemma KeyLeAntisymmetric(a: SortKey, b: SortKey)
    requires KeyLe(a, b) && KeyLe(b, a)
    ensures a == b
  {
    LexLeAntisymmetric(a.lowerName, b.lowerName);
  }

  /** Every earlier record's key is at most every later one's. */
  predicate Sorted(s: seq<Game>) {
    forall i, j :: 0 <= i < j < |s| ==> KeyLe(Key(s[i]), Key(s[j]))
  }

  /** In a sorted list the records sharing a key stand together: nothing with
      another key sits between two of them. */
  lemma SortedGroupsEqualKeys(s: seq<Game>, i: nat, j: nat, l: nat)
    requires Sorted(s) && i < j < l < |s|
    requires Key(s[i]) == Key(s[l])
    ensures Key(s[j]) == Key(s[i])
  {
    KeyLeAntisymmetric(Key(s[i]), Key(s[j]));
  }

  function HasKey(k: SortKey): Game -> bool {
    (g: Game) => Key(g) == k
  }

  /** The records with key `k`, in their order in `s`. */
  function WithKey(s: seq<Game>, k: SortKey): seq<Game> {
    Filter(s, HasKey(k))
  }

  /** Inserts `g` into a sorted list after every record whose key is not
      greater than its own. */
  function Insert(sorted: seq<Game>, g: Game): (r: seq<Game>)
    ensures multiset(r) == multiset(sorted) + multiset{g}
  {
    if sorted == [] then [g]
    else if KeyLe(Key(sorted[0]), Key(g)) then
      assert sorted == [sorted[0]] + sorted[1..];
      [sorted[0]] + Insert(sorted[1..], g)
    else [g] + sorted
  }

  /** Every record of `s` has a key at least `a`. */
  predicate AllAbove(a: SortKey, s: seq<Game>) {
    forall j :: 0 <= j < |s| ==> KeyLe(a, Key(s[j]))
  }

  lemma SortedCons(x: Game, t: seq<Game>)
    requires AllAbove(Key(x), t) && Sorted(t)
    ensures Sorted([x] + t)
  {
    var s := [x] + t;
    forall i, j | 0 <= i < j < |s|
      ensures KeyLe(Key(s[i]), Key(s[j]))
    {
      if i > 0 {
        assert s[i] == t[i - 1] && s[j] == t[j - 1];
      } else {
        assert s[j] == t[j - 1];
      }
    }
  }

  lemma InsertAbove(xs: seq<Game>, g: Game, a: SortKey)
    requires AllAbove(a, xs) && KeyLe(a, Key(g))
    ensures AllAbove(a, Insert(xs, g))
  {
    var t := Insert(xs, g);
    forall j | 0 <= j < |t|
      ensures KeyLe(a, Key(t[j]))
    {
      assert t[j] in multiset(t);
      if t[j] != g {
        assert t[j] in multiset(xs);
        var m :| 0 <= m < |xs| && xs[m] == t[j];
      }
    }
  }

  lemma {:induction false} InsertSorted(xs: seq<Game>, g: Game)
    requires Sorted(xs)
    ensures Sorted(Insert(xs, g))
    decreases |xs|
  {
    if xs == [] {
    } else if KeyLe(Key(xs[0]), Key(g)) {
      InsertSorted(xs[1..], g);
      assert AllAbove(Key(xs[0]), xs[1..]) by {
        forall j | 0 <= j < |xs[1..]|
          ensures KeyLe(Key(xs[0]), Key(xs[1..][j]))
        {
          assert xs[1..][j] == xs[j + 1];
        }
      }
      InsertAbove(xs[1..], g, Key(xs[0]));
      SortedCons(xs[0], Insert(xs[1..], g));
    } else {
      KeyLeTotal(Key(xs[0]), Key(g));
      forall j | 0 <= j < |xs|
        ensures KeyLe(Key(g), Key(xs[j]))
      {
        if j > 0 {
          KeyLeTransitive(Key(g), Key(xs[0]), Key(xs[j]));
        }
      }
      SortedCons(g, xs);
    }
  }

  /** Filtering by key peels off a leading record. */
  lemma WithKeyCons(x: Game, t: seq<Game>, k: SortKey)
    ensures WithKey([x] + t, k) == (if Key(x) == k then [x] else []) + WithKey(t, k)
  {
    FilterConcat([x], t, HasKey(k));
  }

  /** A sorted list holds no record with key `k` when its first key is
      greater than `k`. */
  lemma WithKeyAbove(xs: seq<Game>, k: SortKey)
    requires Sorted(xs) && xs != [] && !KeyLe(Key(xs[0]), k)
    ensures WithKey(xs, k) == []
  {
    forall j | 0 <= j < |xs|
      ensures !HasKey(k)(xs[j])
    {
      if j == 0 {
        KeyLeReflexive(k);
      } else {
        assert KeyLe(Key(xs[0]), Key(xs[j]));
      }
    }
    FilterKeepsNone(xs, HasKey(k));
  }

  /** A sorted list stays sorted without its first record. */
  lemma SortedTail(xs: seq<Game>)
    requires Sorted(xs) && xs != []
    ensures Sorted(xs[1..])
  {
    forall i, j | 0 <= i < j < |xs[1..]|
      ensures KeyLe(Key(xs[1..][i]), Key(xs[1..][j]))
    {
      assert xs[1..][i] == xs[i + 1] && xs[1..][j] == xs[j + 1];
    }
  }

  /** The records of `k` in `xs` followed by `g` when `g` has key `k`. */
  function Expected(xs: seq<Game>, g: Game, k: SortKey): seq<Game> {
    WithKey(xs, k) + (if Key(g) == k then [g] else [])
  }

  /** Insertion places the new record after all records with its own key. */
  lemma {:induction false} InsertWithKey(xs: seq<Game>, g: Game, k: SortKey)
    requires Sorted(xs)
    ensures WithKey(Insert(xs, g), k) == Expected(xs, g, k)
    decreases |xs|
  {
    if xs == [] {
      WithKeyCons(g, [], k);
      assert WithKey([], k) == [];
    } else if KeyLe(Key(xs[0]), Key(g)) {
      SortedTail(xs);
      InsertWithKey(xs[1..], g, k);
      InsertWithKeyStep(xs, g, k);
    } else {
      InsertInFrontWithKey(xs, g, k);
    }
  }

  /** When `g` goes in front of a sorted list, no record of its own key
      precedes it. */
  lemma InsertInFrontWithKey(xs: seq<Game>, g: Game, k: SortKey)
    requires Sorted(xs) && xs != [] && !KeyLe(Key(xs[0]), Key(g))
    ensures WithKey(Insert(xs, g), k) == Expected(xs, g, k)
  {
    WithKeyCons(g, xs, k);
    if Key(g) == k {
      WithKeyAbove(xs, k);
    }
  }

  /** The records of `k` in `xs`: those of its head, then those of its tail. */
  function HeadWithKey(xs: seq<Game>, k: SortKey): seq<Game>
    requires xs != []
  {
    if Key(xs[0]) == k then [xs[0]] else []
  }

  /** Filtering a non-empty list splits at its first record. */
  lemma WithKeySplit(xs: seq<Game>, k: SortKey)
    requires xs != []
    ensures WithKey(xs, k) == HeadWithKey(xs, k) + WithKey(xs[1..], k)
  {
    WithKeyCons(xs[0], xs[1..], k);
    assert [xs[0]] + xs[1..] == xs;
  }

  /** When `g` goes past `xs[0]`, the records of `k` in the result start
      with those of `xs[0]`. */
  lemma InsertPastWithKey(xs: seq<Game>, g: Game, k: SortKey)
    requires xs != [] && KeyLe(Key(xs[0]), Key(g))
    ensures WithKey(Insert(xs, g), k) == HeadWithKey(xs, k) + WithKey(Insert(xs[1..], g), k)
  {
    assert Insert(xs, g) == [xs[0]] + Insert(xs[1..], g);
    WithKeyCons(xs[0], Insert(xs[1..], g), k);
  }

  /** The inductive step of `InsertWithKey`, when `g` goes past `xs[0]`. */
  lemma InsertWithKeyStep(xs: seq<Game>, g: Game, k: SortKey)
    requires xs != [] && KeyLe(Key(xs[0]), Key(g))
    requires WithKey(Insert(xs[1..], g), k) == Expected(xs[1..], g, k)
    ensures WithKey(Insert(xs, g), k) == Expected(xs, g, k)
  {
    var tail := if Key(g) == k then [g] else [];
    InsertPastWithKey(xs, g, k);
    WithKeySplit(xs, k);
    ConcatAssoc(HeadWithKey(xs, k), WithKey(xs[1..], k), tail);
  }

  /** Insertion sort, inserting the records front to back. */
  function SortGames(s: seq<Game>): seq<Game>
    decreases |s|
  {
    if s == [] then [] else Insert(SortGames(s[..|s| - 1]), s[|s| - 1])
  }

  /** The sort yields a sorted permutation that keeps the relative order of
      records with equal keys. */
  lemma {:induction false} SortGamesCorrect(s: seq<Game>)
    ensures multiset(SortGames(s)) == multiset(s)
    ensures Sorted(SortGames(s))
    ensures forall k :: WithKey(SortGames(s), k) == WithKey(s, k)
    decreases |s|
  {
    if s != [] {
      var init, last := s[..|s| - 1], s[|s| - 1];
      assert s == init + [last];
      SortGamesCorrect(init);
      InsertSorted(SortGames(init), last);
      forall k
        ensures WithKey(SortGames(s), k) == WithKey(s, k)
      {
        InsertWithKey(SortGames(init), last, k);
        assert WithKey(SortGames(s), k) == Expected(SortGames(init), last, k);
        FilterConcat(init, [last], HasKey(k));
        assert WithKey([last], k) == (if Key(last) == k then [last] else []);
      }
    }
  }

  /** `get_games`: a permutation of the library with favourites first, each
      group in lower-cased name order, and records of equal key in their
      stored order. */
  function GetGames(games: seq<Game>): (r: seq<Game>)
    ensures multiset(r) == multiset(games)
    ensures forall i, j :: 0 <= i < j < |r| && !r[i].favorite ==> !r[j].favorite
    ensures forall i, j :: 0 <= i < j < |r| && r[i].favorite == r[j].favorite ==> LexLe(Lower(r[i].name), Lower(r[j].name))
    ensures forall k :: WithKey(r, k) == WithKey(games, k)
  {
    SortGamesCorrect(games);
    SortGames(games)
  }
}
