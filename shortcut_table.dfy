/**
 * The shortcut table: a one-to-one map between key chords and
 * instructions.  Chords are stored sorted by key code, so a chord held in
 * any order finds the same binding.
 */
module ShortcutTable {
  import opened Wrappers
  import opened Colour
  import opened Instructions
  import opened Bimaps

  /** A key, identified by its 16-bit key code. */
  type KeyCode = k: nat | k < 0x1_0000

  type Chord = seq<KeyCode>

  predicate Sorted(s: Chord)
  {
    forall i, j | 0 <= i < j < |s| :: s[i] <= s[j]
  }

  /** A key no greater than every key of a sorted chord can go in front of it. */
  lemma SortedCons(x: KeyCode, s: Chord)
    requires Sorted(s)
    requires forall y | y in s :: x <= y
    ensures Sorted([x] + s)
  {
    var t := [x] + s;
    forall i, j | 0 <= i < j < |t|
      ensures t[i] <= t[j]
    {
      assert t[j] == s[j - 1];
      if i == 0 {
        assert s[j - 1] in s;
      } else {
        assert t[i] == s[i - 1];
      }
    }
  }

  /** The first key of a sorted chord is its smallest. */
  lemma SortedMin(s: Chord, x: KeyCode)
    requires Sorted(s) && x in s
    ensures s[0] <= x
  {
    var i :| 0 <= i < |s| && s[i] == x;
  }

  /** The first key of a sorted chord is no greater than the rest of it with a larger key added. */
  lemma BelowAll(s: Chord, k: KeyCode, rest: Chord)
    requires Sorted(s) && s != [] && s[0] < k
    requires multiset(rest) == multiset(s[1..]) + multiset{k}
    ensures forall x | x in rest :: s[0] <= x
  {
    forall x | x in rest
      ensures s[0] <= x
    {
      assert x in multiset(rest);
      if x != k {
        assert x in s[1..];
        SortedMin(s, x);
      }
    }
  }

  /** Dropping the first key drops one copy of it from the multiset. */
  lemma TailMultiset(s: Chord)
    requires s != []
    ensures multiset(s[1..]) == multiset(s) - multiset{s[0]}
  {
    assert s == [s[0]] + s[1..];
  }

  /** The rest of a sorted chord is sorted. */
  lemma SortedTail(s: Chord)
    requires Sorted(s) && s != []
    ensures Sorted(s[1..])
  {
    forall i, j | 0 <= i < j < |s| - 1
      ensures s[1..][i] <= s[1..][j]
    {
      assert s[1..][i] == s[i + 1] && s[1..][j] == s[j + 1];
    }
  }

  /** Two sorted arrangements of the same keys start with the same key. */
  lemma SameHead(a: Chord, b: Chord)
    requires Sorted(a) && Sorted(b) && a != []
    requires multiset(a) == multiset(b)
    ensures b != [] && a[0] == b[0]
  {
    assert a[0] in multiset(b);
    assert b[0] in multiset(a);
    SortedMin(b, a[0]);
    SortedMin(a, b[0]);
  }

  /** Places `k` in front of the first key not smaller than it. */
  function InsertKey(k: KeyCode, s: Chord): (r: Chord)
    requires Sorted(s)
    ensures Sorted(r)
    ensures multiset(r) == multiset(s) + multiset{k}
  {
    if s == [] then [k]
    else if k <= s[0] then
      SortedCons(k, s);
      [k] + s
    else
      var rest := InsertKey(k, s[1..]);
      assert s == [s[0]] + s[1..];
      BelowAll(s, k, rest);
      SortedCons(s[0], rest);
      [s[0]] + rest
  }

  /** The key order of a chord (an ascending sort by key code). */
  function SortKey(s: Chord): (r: Chord)
    ensures Sorted(r)
    ensures multiset(r) == multiset(s)
  {
    if s == [] then []
    else
      assert s == [s[0]] + s[1..];
      InsertKey(s[0], SortKey(s[1..]))
  }

  /** Two sorted arrangements of the same keys are the same sequence. */
  lemma {:induction false} SortedUnique(a: Chord, b: Chord)
    requires Sorted(a) && Sorted(b)
    requires multiset(a) == multiset(b)
    ensures a == b
    decreases |a|
  {
    if a != [] {
      SameHead(a, b);
      TailMultiset(a);
      TailMultiset(b);
      SortedTail(a);
      SortedTail(b);
      SortedUnique(a[1..], b[1..]);
      assert a == [a[0]] + a[1..];
      assert b == [b[0]] + b[1..];
    } else {
      assert |multiset(b)| == 0;
    }
  }

  /** Sorting forgets the order in which the keys were given. */
  lemma SortKeyPermutation(s: Chord, t: Chord)
    requires multiset(s) == multiset(t)
    ensures SortKey(s) == SortKey(t)
  {
    SortedUnique(SortKey(s), SortKey(t));
  }

  /** A sorted chord is its own sort. */
  lemma SortKeySorted(s: Chord)
    requires Sorted(s)
    ensures SortKey(s) == s
  {
    SortedUnique(SortKey(s), s);
  }

  /** The table built by collecting pairs, each chord sorted first. */
  function FromPairs(ps: seq<(Chord, Instruction)>): Bimap<Chord, Instruction>
  {
    if ps == [] then Bimaps.Empty()
    else
      var last := ps[|ps| - 1];
      Bimaps.Insert(FromPairs(ps[..|ps| - 1]), SortKey(last.0), last.1).0
  }

  /** No two pairs share a (sorted) chord or an instruction. */
  ghost predicate DistinctPairs(ps: seq<(Chord, Instruction)>)
  {
    forall i, j | 0 <= i < j < |ps| :: SortKey(ps[i].0) != SortKey(ps[j].0) && ps[i].1 != ps[j].1
  }

  /** `(c, v)` is one of the pairs, its chord sorted. */
  ghost predicate Listed(ps: seq<(Chord, Instruction)>, c: Chord, v: Instruction)
    decreases |ps|
  {
    && ps != []
    && ((SortKey(ps[|ps| - 1].0) == c && ps[|ps| - 1].1 == v) || Listed(ps[..|ps| - 1], c, v))
  }

  lemma {:induction false} ListedIndex(ps: seq<(Chord, Instruction)>, i: nat)
    requires i < |ps|
    ensures Listed(ps, SortKey(ps[i].0), ps[i].1)
    decreases |ps|
  {
    if i < |ps| - 1 {
      ListedIndex(ps[..|ps| - 1], i);
      assert ps[..|ps| - 1][i] == ps[i];
    }
  }

  lemma {:induction false} ListedWitness(ps: seq<(Chord, Instruction)>, c: Chord, v: Instruction) returns (i: nat)
    requires Listed(ps, c, v)
    ensures i < |ps| && SortKey(ps[i].0) == c && ps[i].1 == v
    decreases |ps|
  {
    if SortKey(ps[|ps| - 1].0) == c && ps[|ps| - 1].1 == v {
      i := |ps| - 1;
    } else {
      i := ListedWitness(ps[..|ps| - 1], c, v);
      assert ps[..|ps| - 1][i] == ps[i];
    }
  }

  /** Dropping the last pair keeps the pairs distinct. */
  lemma DistinctInit(ps: seq<(Chord, Instruction)>)
    requires DistinctPairs(ps) && ps != []
    ensures DistinctPairs(ps[..|ps| - 1])
  {
    var init := ps[..|ps| - 1];
    forall i, j | 0 <= i < j < |init|
      ensures SortKey(init[i].0) != SortKey(init[j].0) && init[i].1 != init[j].1
    {
      assert init[i] == ps[i] && init[j] == ps[j];
    }
  }

  /** A table holding exactly the pairs `init` binds neither side of a pair that shares nothing with them. */
  lemma LastFresh(m: Bimap<Chord, Instruction>, init: seq<(Chord, Instruction)>, k: Chord, v: Instruction)
    requires Valid(m)
    requires forall i | 0 <= i < |init| :: SortKey(init[i].0) != k && init[i].1 != v
    requires forall c, w :: Paired(m, c, w) <==> Listed(init, c, w)
    ensures k !in m.fwd && v !in m.bwd
  {
    if k in m.fwd {
      assert Paired(m, k, m.fwd[k]);
      var i := ListedWitness(init, k, m.fwd[k]);
    }
    if v in m.bwd {
      assert Paired(m, m.bwd[v], v);
      var i := ListedWitness(init, m.bwd[v], v);
    }
  }

  /** Collecting pairs that share nothing keeps every one of them and adds nothing else. */
  lemma {:induction false} FromPairsDistinct(ps: seq<(Chord, Instruction)>)
    requires DistinctPairs(ps)
    ensures Valid(FromPairs(ps))
    ensures |FromPairs(ps).fwd| == |ps|
    ensures forall c, v :: Paired(FromPairs(ps), c, v) <==> Listed(ps, c, v)
    decreases |ps|
  {
    if ps != [] {
      var init := ps[..|ps| - 1];
      var last := ps[|ps| - 1];
      DistinctInit(ps);
      FromPairsDistinct(init);
      var m := FromPairs(init);
      var k := SortKey(last.0);
      forall i | 0 <= i < |init|
        ensures SortKey(init[i].0) != k && init[i].1 != last.1
      {
        assert init[i] == ps[i];
      }
      LastFresh(m, init, k, last.1);
      InsertSpec(m, k, last.1);
    }
  }

  /**
   * The key of the `i`-th built-in binding: S, E, H, R, O, F, L, D, P, G
   * (key codes are the ASCII capitals).
   */
  function DefaultKey(i: nat): KeyCode
    requires i < 10
  {
    if i == 0 then 83 else if i == 1 then 69 else if i == 2 then 72
    else if i == 3 then 82 else if i == 4 then 79 else if i == 5 then 70
    else if i == 6 then 76 else if i == 7 then 68 else if i == 8 then 80
    else 71
  }

  /** The instruction of the `i`-th built-in binding. */
  function DefaultInstruction(i: nat): Instruction
    requires i < 10
  {
    if i == 0 then SaveCol
    else if i == 1 then Eraser
    else if i == 2 then ChangePickerType(Hsva)
    else if i == 3 then ChangePickerType(Rgba)
    else if i == 4 then ChangePickerType(OkLab)
    else if i == 5 then ChangeDrawState(DrawState.Fill)
    else if i == 6 then ChangeDrawState(DrawState.Line)
    else if i == 7 then ChangeDrawState(DrawState.Draw)
    else if i == 8 then ChangeDrawState(DrawState.Picker)
    else ToggleGrid
  }

  /** The ten built-in bindings, one key each. */
  function DefaultPairs(): seq<(Chord, Instruction)>
  {
    seq(10, i requires 0 <= i < 10 => ([DefaultKey(i)], DefaultInstruction(i)))
  }

  /** Position of a default key in the default list (tells the keys apart). */
  ghost function DefaultKeyRank(k: KeyCode): int
  {
    if k == 83 then 0 else if k == 69 then 1 else if k == 72 then 2
    else if k == 82 then 3 else if k == 79 then 4 else if k == 70 then 5
    else if k == 76 then 6 else if k == 68 then 7 else if k == 80 then 8
    else if k == 71 then 9 else -1
  }

  /** Position of a default instruction in the default list. */
  ghost function DefaultValueRank(v: Instruction): int
  {
    match v
    case SaveCol => 0
    case Eraser => 1
    case ChangePickerType(sel) => (match sel case Hsva => 2 case Rgba => 3 case OkLab => 4)
    case ChangeDrawState(d) => (match d case Fill => 5 case Line => 6 case Draw => 7 case Picker => 8)
    case ToggleGrid => 9
    case _ => -1
  }

  /** A one-key chord is already sorted. */
  lemma SortSingle(k: KeyCode)
    ensures SortKey([k]) == [k]
  {
  }

  /** The `i`-th default pair, with its chord sorted, and its ranks. */
  lemma DefaultAt(ps: seq<(Chord, Instruction)>, i: nat)
    requires ps == DefaultPairs() && i < 10
    ensures SortKey(ps[i].0) == [DefaultKey(i)] && ps[i].1 == DefaultInstruction(i)
    ensures DefaultKeyRank(DefaultKey(i)) == i && DefaultValueRank(DefaultInstruction(i)) == i
  {
    SortSingle(DefaultKey(i));
    DefaultKeyRanks(i);
    DefaultValueRanks(i);
  }

  /** The key rank recovers a default binding's position. */
  lemma DefaultKeyRanks(i: nat)
    requires i < 10
    ensures DefaultKeyRank(DefaultKey(i)) == i
  {
  }

  /** The instruction rank recovers a default binding's position. */
  lemma DefaultValueRanks(i: nat)
    requires i < 10
    ensures DefaultValueRank(DefaultInstruction(i)) == i
  {
  }

  /** The default chords and instructions are pairwise distinct. */
  lemma DefaultDistinct(ps: seq<(Chord, Instruction)>)
    requires ps == DefaultPairs()
    ensures DistinctPairs(ps)
  {
    forall i, j | 0 <= i < j < |ps|
      ensures SortKey(ps[i].0) != SortKey(ps[j].0) && ps[i].1 != ps[j].1
    {
      DefaultAt(ps, i);
      DefaultAt(ps, j);
      assert [DefaultKey(i)][0] != [DefaultKey(j)][0];
    }
  }

  /**
   * The default table binds exactly the ten listed pairs, one key per
   * chord, with distinct keys and distinct instructions, and it is a
   * bijection.
   */
  lemma DefaultTableSpec(ps: seq<(Chord, Instruction)>)
    requires ps == DefaultPairs()
    ensures Valid(FromPairs(ps))
    ensures |FromPairs(ps).fwd| == 10
    ensures forall c | c in FromPairs(ps).fwd :: |c| == 1 && Sorted(c)
    ensures forall i | 0 <= i < 10 :: Paired(FromPairs(ps), [DefaultKey(i)], DefaultInstruction(i))
  {
    DefaultDistinct(ps);
    FromPairsDistinct(ps);
    forall c | c in FromPairs(ps).fwd
      ensures |c| == 1 && Sorted(c)
    {
      assert Paired(FromPairs(ps), c, FromPairs(ps).fwd[c]);
      var i := ListedWitness(ps, c, FromPairs(ps).fwd[c]);
      DefaultAt(ps, i);
    }
    forall i | 0 <= i < 10
      ensures Paired(FromPairs(ps), [DefaultKey(i)], DefaultInstruction(i))
    {
      ListedIndex(ps, i);
      DefaultAt(ps, i);
    }
  }

  /**
   * The default table: a bijection of exactly the ten built-in pairs, each
   * chord a single key.
   */
  function DefaultTable(): (m: Bimap<Chord, Instruction>)
    ensures Valid(m)
    ensures |m.fwd| == 10
    ensures forall c | c in m.fwd :: |c| == 1 && Sorted(c)
    ensures forall i | 0 <= i < 10 :: Paired(m, [DefaultKey(i)], DefaultInstruction(i))
  {
    var ps := DefaultPairs();
    DefaultTableSpec(ps);
    FromPairs(ps)
  }

  /** Binding a sorted chord keeps the table one-to-one and every bound chord sorted. */
  lemma InsertSorted(m: Bimap<Chord, Instruction>, k: Chord, v: Instruction)
    requires Bimaps.Valid(m) && (forall c | c in m.fwd :: Sorted(c)) && Sorted(k)
    ensures Bimaps.Valid(Bimaps.Insert(m, k, v).0)
    ensures forall c | c in Bimaps.Insert(m, k, v).0.fwd :: Sorted(c)
    ensures Paired(Bimaps.Insert(m, k, v).0, k, v) && Bimaps.Insert(m, k, v).0.bwd[v] == k
    ensures forall c, w :: Paired(Bimaps.Insert(m, k, v).0, c, w) <==>
      (c == k && w == v) || (c != k && w != v && Paired(m, c, w))
  {
    InsertSpec(m, k, v);
    var m' := Bimaps.Insert(m, k, v).0;
    forall c | c in m'.fwd
      ensures Sorted(c)
    {
      assert Paired(m', c, m'.fwd[c]);
    }
  }

  /** The shortcut table of the running program. */
  class Shortcuts {
    var table: Bimap<Chord, Instruction>

    /** One-to-one, and every stored chord is sorted. */
    ghost predicate Valid()
      reads this
    {
      Bimaps.Valid(table) && forall c | c in table.fwd :: Sorted(c)
    }

    /** The default bindings. */
    constructor Default()
      ensures Valid() && table == DefaultTable()
      ensures |table.fwd| == 10
      ensures forall c | c in table.fwd :: |c| == 1
      ensures forall i | 0 <= i < 10 :: Paired(table, [DefaultKey(i)], DefaultInstruction(i))
    {
      table := DefaultTable();
    }

    /**
     * Binds the sorted chord to `value` unless either is bound already, in
     * which case the table is untouched and the pair is returned.
     */
    method InsertNoOverwrite(key: Chord, value: Instruction) returns (r: Result<(), (Chord, Instruction)>)
      requires Valid()
      modifies this
      ensures Valid()
      ensures r.Err? <==> SortKey(key) in old(table).fwd || value in old(table).bwd
      ensures r.Err? ==> r.error == (SortKey(key), value) && table == old(table)
      ensures r.Ok? ==> forall c, v :: Paired(table, c, v) <==>
        (c == SortKey(key) && v == value) || Paired(old(table), c, v)
    {
      var k := SortKey(key);
      InsertNoOverwriteSpec(table, k, value);
      match Bimaps.InsertNoOverwrite(table, k, value)
      case Ok(m) =>
        table := m;
        r := Ok(());
      case Err(e) =>
        r := Err(e);
    }

    /**
     * Binds the sorted chord to `value`, dropping any binding that shared
     * the chord or the instruction; all other bindings stay.
     */
    method Insert(key: Chord, value: Instruction)
      requires Valid()
      modifies this
      ensures Valid()
      ensures Paired(table, SortKey(key), value) && table.bwd[value] == SortKey(key)
      ensures forall c, v :: Paired(table, c, v) <==>
        (c == SortKey(key) && v == value) || (c != SortKey(key) && v != value && Paired(old(table), c, v))
    {
      var k := SortKey(key);
      InsertSorted(table, k, value);
      table := Bimaps.Insert(table, k, value).0;
    }

    /** The instruction bound to the held keys, in whatever order they are held; `NoInstruction` when unbound. */
    function GetOutput(keys: Chord): (r: Instruction)
      reads this
    {
      var k := SortKey(keys);
      if k in table.fwd then table.fwd[k] else NoInstruction
    }

    /** The chord bound to an instruction, if any. */
    function GetShortcut(output: Instruction): (r: Option<Chord>)
      reads this
    {
      if output in table.bwd then Some(table.bwd[output]) else None
    }

    /** Any arrangement of the same held keys resolves to the same instruction. */
    lemma GetOutputOrderInsensitive(k1: Chord, k2: Chord)
      requires multiset(k1) == multiset(k2)
      ensures GetOutput(k1) == GetOutput(k2)
    {
      SortKeyPermutation(k1, k2);
    }

    /** No keys held gives no instruction unless the empty chord was bound. */
    lemma GetOutputEmpty()
      requires [] !in table.fwd
      ensures GetOutput([]) == NoInstruction
    {
    }

    /**
     * Forward and reverse lookups agree: the chord reported for an
     * instruction, held in any order, resolves back to that instruction,
     * and a bound chord's instruction reports that chord (sorted).
     */
    lemma LookupsAgree(keys: Chord, v: Instruction)
      requires Valid()
      ensures GetShortcut(v).Some? ==>
        Sorted(GetShortcut(v).value) && GetOutput(GetShortcut(v).value) == v
      ensures SortKey(keys) in table.fwd ==> GetShortcut(GetOutput(keys)) == Some(SortKey(keys))
    {
      if GetShortcut(v).Some? {
        var c := GetShortcut(v).value;
        SortKeySorted(c);
      }
    }
  }
}
