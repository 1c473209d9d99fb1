/** Keeping the first occurrence of every key of a list, under a cap on its length and on its total weight. */
module FirstOccurrence {
  import opened Common

  datatype Cell<+K, +E> = Bad | Blank | Item(key: K, weight: nat, entry: E) {
    function Key(): Option<K> { if Item? then Some(key) else None }
    function Weight(): nat { if Item? then weight else 0 }
    /** The cell without its entry. */
    function Face(): Cell<K, ()> { if Item? then Item(key, weight, ()) else if Bad? then Bad else Blank }
  }

  datatype Limits = Limits(cells: nat, weight: nat)

  datatype State<K(==), +E> = State(entries: seq<E>, seen: set<K>, weight: nat)

  /** One pass of the loop. */
  function Pass<K(==), E>(limits: Limits, st: State<K, E>, idx: nat, cell: Cell<K, E>): Option<State<K, E>> {
    if idx >= limits.cells || cell.Bad? || st.weight + cell.Weight() > limits.weight then None
    else
      var st' := st.(weight := st.weight + cell.Weight());
      if cell.Item? && cell.key !in st.seen then
        Some(st'.(entries := st.entries + [cell.entry], seen := st.seen + {cell.key}))
      else Some(st')
  }

  function Run<K(==), E>(limits: Limits, cells: seq<Cell<K, E>>): Option<State<K, E>> {
    var n := |cells|;
    if n == 0 then Some(State([], {}, 0))
    else PassIfSome(limits, Run(limits, cells[..n - 1]), n - 1, cells[n - 1])
  }

  function PassIfSome<K(==), E>(limits: Limits, r: Option<State<K, E>>, idx: nat, cell: Cell<K, E>)
    : Option<State<K, E>>
  {
    if r.None? then None else Pass(limits, r.value, idx, cell)
  }

  // --- What a run means ---

  function Keys<K(==), E>(cells: seq<Cell<K, E>>): set<K> {
    set c | c in Faces(cells) && c.Item? :: c.key
  }

  function Faces<K, E>(cells: seq<Cell<K, E>>): (r: seq<Cell<K, ()>>)
    ensures |r| == |cells| && forall i :: 0 <= i < |cells| ==> r[i] == cells[i].Face()
  {
    seq(|cells|, i requires 0 <= i < |cells| => cells[i].Face())
  }

  function Total<K, E>(cells: seq<Cell<K, E>>): nat {
    if cells == [] then 0 else Total(cells[..|cells| - 1]) + cells[|cells| - 1].Weight()
  }

  predicate Acceptable<K, E>(limits: Limits, cells: seq<Cell<K, E>>) {
    |cells| <= limits.cells && (forall i :: 0 <= i < |cells| ==> !cells[i].Bad?) && Total(cells) <= limits.weight
  }

  /** Position `i` holds a key that no earlier position holds. */
  predicate IsFirst<K(==), E>(cells: seq<Cell<K, E>>, i: nat) {
    i < |cells| && cells[i].Item? && forall j :: 0 <= j < i ==> cells[j].Key() != Some(cells[i].key)
  }

  /** The positions below `n` where a key occurs first, in order. */
  function FirstPositions<K(==), E>(cells: seq<Cell<K, E>>, n: nat): (at: seq<nat>)
    requires n <= |cells|
    ensures forall i :: 0 <= i < |at| ==> at[i] < n && IsFirst(cells, at[i])
    ensures forall x, y :: 0 <= x < y < |at| ==> at[x] < at[y]
    ensures forall i: nat :: i < n && IsFirst(cells, i) ==> i in at
  {
    if n == 0 then [] else FirstPositions(cells, n - 1) + if IsFirst(cells, n - 1) then [n - 1] else []
  }

  lemma {:induction false} FewPositions<K, E>(cells: seq<Cell<K, E>>, n: nat)
    requires n <= |cells|
    ensures |FirstPositions(cells, n)| <= n
  {
    if n > 0 { FewPositions(cells, n - 1); }
  }

  lemma FirstOnPrefix<K, E>(cells: seq<Cell<K, E>>, k: nat, i: nat)
    requires i < k <= |cells|
    ensures IsFirst(cells[..k], i) <==> IsFirst(cells, i)
  {
    assert forall j :: 0 <= j <= i ==> cells[..k][j] == cells[j];
  }

  lemma {:induction false} FirstPositionsOfPrefix<K, E>(cells: seq<Cell<K, E>>, k: nat, n: nat)
    requires n <= k <= |cells|
    ensures FirstPositions(cells[..k], n) == FirstPositions(cells, n)
  {
    if n > 0 {
      FirstPositionsOfPrefix(cells, k, n - 1);
      FirstOnPrefix(cells, k, n - 1);
    }
  }

  /** The entries where a key occurs first. */
  function FirstEntries<K(==), E>(cells: seq<Cell<K, E>>): seq<E> {
    var n := |cells|;
    if n == 0 then [] else FirstEntries(cells[..n - 1]) + if IsFirst(cells, n - 1) then [cells[n - 1].entry] else []
  }

  /** They are the entries at the first positions, in order. */
  lemma {:induction false} EntriesAtFirstPositions<K, E>(cells: seq<Cell<K, E>>)
    ensures var at, es := FirstPositions(cells, |cells|), FirstEntries(cells);
            |es| == |at| && forall j :: 0 <= j < |at| ==> es[j] == cells[at[j]].entry
  {
    var n := |cells|;
    if n > 0 {
      EntriesAtFirstPositions(cells[..n - 1]);
      FirstPositionsOfPrefix(cells, n - 1, n - 1);
    }
  }

  lemma KeyIsKnown<K, E>(cells: seq<Cell<K, E>>, k: K)
    ensures k in Keys(cells) <==> exists j :: 0 <= j < |cells| && cells[j].Key() == Some(k)
  {
    if j :| 0 <= j < |cells| && cells[j].Key() == Some(k) {
      assert Faces(cells)[j] in Faces(cells);
    }
    if k in Keys(cells) {
      var c :| c in Faces(cells) && c.Item? && c.key == k;
      var j :| 0 <= j < |cells| && Faces(cells)[j] == c;
      assert cells[j].Key() == Some(k);
    }
  }

  lemma MoreKeys<K, E>(cells: seq<Cell<K, E>>)
    requires cells != []
    ensures var n := |cells|;
            var c := cells[n - 1];
            && Keys(cells) == Keys(cells[..n - 1]) + (if c.Item? then {c.key} else {})
            && (IsFirst(cells, n - 1) <==> c.Item? && c.key !in Keys(cells[..n - 1]))
  {
    var n := |cells|;
    assert Faces(cells) == Faces(cells[..n - 1]) + [cells[n - 1].Face()];
    forall c ensures c in Faces(cells) <==> c in Faces(cells[..n - 1]) || c == cells[n - 1].Face() {}
    if cells[n - 1].Item? { KeyIsKnown(cells[..n - 1], cells[n - 1].key); }
  }

  lemma MoreAcceptable<K, E>(limits: Limits, cells: seq<Cell<K, E>>)
    requires cells != []
    ensures var n := |cells|;
            Acceptable(limits, cells) <==>
              && Acceptable(limits, cells[..n - 1]) && n - 1 < limits.cells && !cells[n - 1].Bad?
              && Total(cells[..n - 1]) + cells[n - 1].Weight() <= limits.weight
  {
    var n := |cells|;
    assert forall i :: 0 <= i < n - 1 ==> cells[..n - 1][i] == cells[i];
  }

  /** A run accepts exactly the acceptable lists, and keeps the first occurrence of every key, in order. */
  lemma {:induction false} RunMeans<K, E>(limits: Limits, cells: seq<Cell<K, E>>)
    ensures Run(limits, cells).Some? <==> Acceptable(limits, cells)
    ensures Run(limits, cells).Some? ==>
              Run(limits, cells).value == State(FirstEntries(cells), Keys(cells), Total(cells))
  {
    if cells != [] {
      RunMeans(limits, cells[..|cells| - 1]);
      MoreKeys(cells);
      MoreAcceptable(limits, cells);
    }
  }

  /** As many entries as distinct keys. */
  lemma {:induction false} OneEntryPerKey<K, E>(cells: seq<Cell<K, E>>)
    ensures |FirstEntries(cells)| == |Keys(cells)|
  {
    if cells != [] {
      OneEntryPerKey(cells[..|cells| - 1]);
      MoreKeys(cells);
      var c, keys := cells[|cells| - 1], Keys(cells[..|cells| - 1]);
      if c.Item? {
        if c.key in keys { assert keys + {c.key} == keys; }
        assert c.key !in keys ==> |keys + {c.key}| == |keys| + 1;
      }
    }
  }

  /** With all keys different nothing is dropped. */
  lemma {:induction false} DistinctKeysAllKept<K, E>(cells: seq<Cell<K, E>>)
    requires forall i :: 0 <= i < |cells| ==> cells[i].Item?
    requires forall i, j :: 0 <= i < j < |cells| ==> cells[i].key != cells[j].key
    ensures |FirstEntries(cells)| == |cells| && forall i :: 0 <= i < |cells| ==>
            FirstEntries(cells)[i] == cells[i].entry
  {
    if cells != [] {
      DistinctKeysAllKept(cells[..|cells| - 1]);
      assert IsFirst(cells, |cells| - 1);
    }
  }

  // --- Permuted and repeated lists ---

  lemma {:induction false} TotalWithout<K, E>(a: seq<Cell<K, E>>, c: Cell<K, E>, b: seq<Cell<K, E>>)
    ensures Total(a + [c] + b) == Total(a + b) + c.Weight()
  {
    if b == [] {
      assert a + [c] + b == a + [c] && (a + [c])[..|a|] == a && a + b == a;
    } else {
      var m := |b| - 1;
      assert (a + [c] + b)[..|a| + 1 + m] == a + [c] + b[..m] && (a + b)[..|a| + m] == a + b[..m];
      TotalWithout(a, c, b[..m]);
    }
  }

  lemma Cancel<T>(a: multiset<T>, b: multiset<T>, x: T)
    requires a + multiset{x} == b + multiset{x}
    ensures a == b
  {
    forall y ensures a[y] == b[y] {
      assert (a + multiset{x})[y] == (b + multiset{x})[y];
    }
  }

  lemma Remove<T>(a: seq<T>, b: seq<T>) returns (i: nat)
    requires a != [] && multiset(a) == multiset(b)
    ensures i < |b| && b[i] == a[|a| - 1] && b == b[..i] + [b[i]] + b[i + 1..]
    ensures multiset(a[..|a| - 1]) == multiset(b[..i] + b[i + 1..])
  {
    var n := |a| - 1;
    assert a == a[..n] + [a[n]];
    assert a[n] in multiset(b);
    i :| 0 <= i < |b| && b[i] == a[n];
    var x, y := b[..i], b[i + 1..];
    assert b == x + [b[i]] + y;
    assert multiset(a) == multiset(a[..n]) + multiset{a[n]};
    assert multiset(b) == multiset(x) + multiset{b[i]} + multiset(y) == multiset(x + y) + multiset{b[i]};
    Cancel(multiset(a[..n]), multiset(x + y), a[n]);
  }

  lemma {:induction false} TotalPermuted<K>(a: seq<Cell<K, ()>>, b: seq<Cell<K, ()>>)
    requires multiset(a) == multiset(b)
    ensures Total(a) == Total(b)
  {
    if a == [] {
      assert |multiset(b)| == |b|;
    } else {
      var i := Remove(a, b);
      TotalPermuted(a[..|a| - 1], b[..i] + b[i + 1..]);
      TotalWithout(b[..i], b[i], b[i + 1..]);
    }
  }

  lemma {:induction false} TotalOfFaces<K, E>(cells: seq<Cell<K, E>>)
    ensures Total(Faces(cells)) == Total(cells)
  {
    if cells != [] {
      assert Faces(cells)[..|cells| - 1] == Faces(cells[..|cells| - 1]);
      TotalOfFaces(cells[..|cells| - 1]);
    }
  }

  /** Acceptance and the keys depend on the cells, not on their order. */
  lemma {:induction false} PermutedRunsAgree<K, E>(limits: Limits, a: seq<Cell<K, E>>, b: seq<Cell<K, E>>)
    requires multiset(Faces(a)) == multiset(Faces(b))
    ensures Run(limits, a).Some? <==> Run(limits, b).Some?
    ensures Run(limits, a).Some? ==>
              && Run(limits, a).value.seen == Run(limits, b).value.seen
              && Run(limits, a).value.weight == Run(limits, b).value.weight
              && |Run(limits, a).value.entries| == |Run(limits, b).value.entries|
  {
    RunMeans(limits, a);
    RunMeans(limits, b);
    OneEntryPerKey(a);
    OneEntryPerKey(b);
    TotalOfFaces(a);
    TotalOfFaces(b);
    TotalPermuted(Faces(a), Faces(b));
    assert |multiset(Faces(a))| == |a| && |multiset(Faces(b))| == |b|;
    SameFaces(a, b);
  }

  lemma SameFaces<K, E>(a: seq<Cell<K, E>>, b: seq<Cell<K, E>>)
    requires multiset(Faces(a)) == multiset(Faces(b))
    ensures Keys(a) == Keys(b)
    ensures (forall i :: 0 <= i < |a| ==> !a[i].Bad?) <==> (forall i :: 0 <= i < |b| ==> !b[i].Bad?)
  {
    forall c ensures c in Faces(a) <==> c in Faces(b) {
      assert c in multiset(Faces(a)) <==> c in multiset(Faces(b));
    }
    AllGood(a);
    AllGood(b);
  }

  lemma AllGood<K, E>(a: seq<Cell<K, E>>)
    ensures (forall i :: 0 <= i < |a| ==> !a[i].Bad?) <==> Bad !in Faces(a)
  {
    if i :| 0 <= i < |a| && a[i].Bad? { assert Faces(a)[i] == Bad; }
  }

  lemma {:induction false} TotalOfConcat<K, E>(a: seq<Cell<K, E>>, b: seq<Cell<K, E>>)
    ensures Total(a + b) == Total(a) + Total(b)
    decreases b
  {
    if b == [] {
      assert a + b == a;
    } else {
      assert (a + b)[..|a| + |b| - 1] == a + b[..|b| - 1];
      TotalOfConcat(a, b[..|b| - 1]);
    }
  }

  lemma {:induction false} KnownCellsAddNothing<K, E>(a: seq<Cell<K, E>>, b: seq<Cell<K, E>>)
    requires Keys(b) <= Keys(a)
    ensures Keys(a + b) == Keys(a) && FirstEntries(a + b) == FirstEntries(a)
    decreases b
  {
    if b == [] {
      assert a + b == a;
    } else {
      var n := |b| - 1;
      MoreKeys(b);
      KnownCellsAddNothing(a, b[..n]);
      assert (a + b)[..|a| + n] == a + b[..n];
      MoreKeys(a + b);
    }
  }

  lemma SecondHalf<K, E>(both: seq<Cell<K, E>>, n: nat)
    requires n <= |both| && Faces(both) == Faces(both[..n]) + Faces(both[..n])
    ensures Faces(both[n..]) == Faces(both[..n]) && |both| == 2 * n
  {
    assert |Faces(both)| == |both| == 2 * n;
    assert Faces(both[n..]) == Faces(both)[n..];
  }

  /** Running through the same cells again, up to their entries, changes nothing but the weight. */
  lemma {:induction false} RunningAgain<K, E>(limits: Limits, both: seq<Cell<K, E>>, n: nat)
    requires n <= |both| && Run(limits, both[..n]).Some? && Faces(both) == Faces(both[..n]) + Faces(both[..n])
    ensures Run(limits, both).Some? <==>
              2 * n <= limits.cells && 2 * Run(limits, both[..n]).value.weight <= limits.weight
    ensures Run(limits, both).Some? ==>
              && Run(limits, both).value.entries == Run(limits, both[..n]).value.entries
              && Run(limits, both).value.seen == Run(limits, both[..n]).value.seen
  {
    var a, b := both[..n], both[n..];
    assert both == a + b;
    SecondHalf(both, n);
    RunMeans(limits, a);
    RunMeans(limits, both);
    SameFaces(a, b);
    KnownCellsAddNothing(a, b);
    AcceptableTwice(limits, a, b);
  }

  lemma {:induction false} AcceptableTwice<K, E>(limits: Limits, a: seq<Cell<K, E>>, b: seq<Cell<K, E>>)
    requires Faces(a) == Faces(b) && Acceptable(limits, a)
    ensures Acceptable(limits, a + b) <==> 2 * |a| <= limits.cells && 2 * Total(a) <= limits.weight
  {
    TotalOfConcat(a, b);
    TotalOfFaces(a);
    TotalOfFaces(b);
    SameFaces(a, b);
    assert |a| == |Faces(a)| == |Faces(b)| == |b|;
    GoodConcat(a, b);
  }

  lemma GoodConcat<K, E>(a: seq<Cell<K, E>>, b: seq<Cell<K, E>>)
    requires (forall i :: 0 <= i < |a| ==> !a[i].Bad?) && forall i :: 0 <= i < |b| ==> !b[i].Bad?
    ensures forall i :: 0 <= i < |a + b| ==> !(a + b)[i].Bad?
  {
  }

  function Map<T, U>(f: T -> U, s: seq<T>): (r: seq<U>)
    ensures |r| == |s| && forall i :: 0 <= i < |s| ==> r[i] == f(s[i])
  {
    seq(|s|, i requires 0 <= i < |s| => f(s[i]))
  }

  lemma MapOfConcat<T, U>(f: T -> U, a: seq<T>, b: seq<T>)
    ensures Map(f, a + b) == Map(f, a) + Map(f, b)
  {
  }

  lemma InsertPermuted<U>(p: seq<U>, x: seq<U>, m: seq<U>, y: seq<U>)
    requires multiset(p) == multiset(x + y)
    ensures multiset(p + m) == multiset(x + m + y)
  {
    assert multiset(x + y) == multiset(x) + multiset(y);
    assert multiset(x + m + y) == multiset(x) + multiset(m) + multiset(y);
  }

  lemma {:induction false} PermutedMap<T, U>(f: T -> U, a: seq<T>, b: seq<T>)
    requires multiset(a) == multiset(b)
    ensures multiset(Map(f, a)) == multiset(Map(f, b))
  {
    if a == [] {
      assert |multiset(b)| == |b|;
    } else {
      var n := |a| - 1;
      var i := Remove(a, b);
      var x, y := b[..i], b[i + 1..];
      PermutedMap(f, a[..n], x + y);
      MapOfConcat(f, x, y);
      MapOfConcat(f, a[..n], [a[n]]);
      MapOfConcat(f, x, [b[i]]);
      MapOfConcat(f, x + [b[i]], y);
      assert a == a[..n] + [a[n]] && b == x + [b[i]] + y;
      InsertPermuted(Map(f, a[..n]), Map(f, x), Map(f, [a[n]]), Map(f, y));
    }
  }
}
