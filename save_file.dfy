/**
 * The persisted shortcuts and folder list (src/node/save_file.rs).
 *
 * On disk the shortcut table is a map from chord strings to instructions.
 * Loading (`into`) parses every chord string and inserts the pairs into an
 * empty bijection, failing as a whole on the first string that does not
 * parse or the first pair that collides with an earlier one.  Saving
 * (`from`) takes the table and folder list out of the live data and turns
 * every chord into its string.
 *
 * The chord/string conversions (`string_to_shortcut`,
 * `shortcut_to_string`) are not part of this model; they are the
 * parameters `parse` and `show`.  The order in which a map is walked is
 * the parameter `order`, any enumeration of its keys (the on-disk map is
 * walked in ascending key order).  The JSON encoding and the file system
 * are left out: `Recover` receives what reading the file produced.
 */
module SaveFile {
  import opened Wrappers
  import opened Instructions
  import opened Bimaps
  import opened ShortcutTable

  type Path = string

  /** The serialised form (`SaveDataStore`). */
  datatype SaveDataStore = SaveDataStore(shortcuts: map<string, Instruction>, cachedDirs: seq<Path>)

  /** Why loading failed: a chord string that does not parse, or a collision with an earlier pair. */
  datatype LoadError =
    | Syntax(chord: string)
    | Conflict(chord: string, overwritten: Overwritten<Chord, Instruction>)
    | FileError(message: string)   // path, existence check, read or JSON error

  /** `order` lists each element of `keys` exactly once. */
  ghost predicate Enumerates<T>(order: seq<T>, keys: set<T>)
  {
    && (forall i, j | 0 <= i < j < |order| :: order[i] != order[j])
    && (forall i | 0 <= i < |order| :: order[i] in keys)
    && (forall k | k in keys :: k in order)
  }

  // ---------------------------------------------------------------------
  // Loading
  // ---------------------------------------------------------------------

  /**
   * The loop of `into` from entry `i` on, with the pairs inserted so far in
   * `acc`: parse, insert, and stop at the first failure.
   */
  function LoadFrom(s: SaveDataStore, order: seq<string>, parse: string -> Option<Chord>,
                    i: nat, acc: Bimap<Chord, Instruction>): Result<Bimap<Chord, Instruction>, LoadError>
    requires i <= |order|
    requires forall j | 0 <= j < |order| :: order[j] in s.shortcuts
    decreases |order| - i
  {
    if i == |order| then Ok(acc)
    else
      match parse(order[i])
      case None => Err(Syntax(order[i]))
      case Some(c) =>
        var (m, ov) := Bimaps.Insert(acc, c, s.shortcuts[order[i]]);
        if ov.Neither? then LoadFrom(s, order, parse, i + 1, m)
        else Err(Conflict(order[i], ov))
  }

  /** Entries `0..n` of the walk all parse, and no two of them share a chord or an instruction. */
  ghost predicate Clean(s: SaveDataStore, order: seq<string>, parse: string -> Option<Chord>, n: nat)
    requires n <= |order|
    requires forall j | 0 <= j < |order| :: order[j] in s.shortcuts
  {
    && (forall j | 0 <= j < n :: parse(order[j]).Some?)
    && (forall j1, j2 | 0 <= j1 < j2 < n ::
          parse(order[j1]) != parse(order[j2]) && s.shortcuts[order[j1]] != s.shortcuts[order[j2]])
  }

  /** Entry `j` of the walk parses to `c` and maps to `v`. */
  ghost predicate ParsedAt(s: SaveDataStore, order: seq<string>, parse: string -> Option<Chord>,
                           j: nat, c: Chord, v: Instruction)
  {
    j < |order| && order[j] in s.shortcuts && parse(order[j]) == Some(c) && s.shortcuts[order[j]] == v
  }

  /**
   * Started from the bijection of the first `i` entries, the walk succeeds
   * exactly when all entries are clean, and then yields the bijection of
   * exactly the parsed pairs.  A failure names the first entry that does
   * not parse or collides.
   */
  lemma {:induction false} LoadFromSpec(s: SaveDataStore, order: seq<string>, parse: string -> Option<Chord>,
                                        i: nat, acc: Bimap<Chord, Instruction>)
    requires i <= |order|
    requires forall j | 0 <= j < |order| :: order[j] in s.shortcuts
    requires Accumulated(s, order, parse, i, acc)
    ensures var r := LoadFrom(s, order, parse, i, acc);
      && (r.Ok? <==> Clean(s, order, parse, |order|))
      && (r.Ok? ==> Valid(r.value))
      && (r.Ok? ==> forall c, v :: Paired(r.value, c, v) <==> exists j :: 0 <= j < |order| && ParsedAt(s, order, parse, j, c, v))
      && (r.Err? ==> exists k :: i <= k < |order| && Clean(s, order, parse, k) && FailsAt(s, order, parse, k, r.error))
    decreases |order| - i
  {
    if i < |order| {
      match parse(order[i])
      case None =>
        assert FailsAt(s, order, parse, i, Syntax(order[i]));
      case Some(c) =>
        var v := s.shortcuts[order[i]];
        var (m, ov) := Bimaps.Insert(acc, c, v);
        LoadStep(s, order, parse, i, acc);
        if ov.Neither? {
          LoadFromSpec(s, order, parse, i + 1, m);
        } else {
          assert FailsAt(s, order, parse, i, Conflict(order[i], ov));
        }
    }
  }

  /** `acc` is the bijection of exactly the first `i` entries of the walk, and those are clean. */
  ghost predicate Accumulated(s: SaveDataStore, order: seq<string>, parse: string -> Option<Chord>,
                              i: nat, acc: Bimap<Chord, Instruction>)
    requires i <= |order|
    requires forall j | 0 <= j < |order| :: order[j] in s.shortcuts
  {
    && Valid(acc) && Clean(s, order, parse, i)
    && forall c, v :: Paired(acc, c, v) <==> exists j :: 0 <= j < i && ParsedAt(s, order, parse, j, c, v)
  }

  /**
   * One step of the walk on an entry that parses: inserting it without
   * overwriting extends the accumulated bijection by that entry; any
   * overwrite is a collision with an earlier entry.
   */
  lemma LoadStep(s: SaveDataStore, order: seq<string>, parse: string -> Option<Chord>,
                 i: nat, acc: Bimap<Chord, Instruction>)
    requires i < |order|
    requires forall j | 0 <= j < |order| :: order[j] in s.shortcuts
    requires Accumulated(s, order, parse, i, acc)
    requires parse(order[i]).Some?
    ensures var (m, ov) := Bimaps.Insert(acc, parse(order[i]).value, s.shortcuts[order[i]]);
      && (ov.Neither? ==> Accumulated(s, order, parse, i + 1, m))
      && (!ov.Neither? ==> FailsAt(s, order, parse, i, Conflict(order[i], ov)))
  {
    var c := parse(order[i]).value;
    var v := s.shortcuts[order[i]];
    InsertOverwritten(acc, c, v);
    var (m, ov) := Bimaps.Insert(acc, c, v);
    if ov.Neither? {
      LoadStepClean(s, order, parse, i, acc);
      LoadStepPairs(s, order, parse, i, acc);
    } else {
      LoadStepConflict(s, order, parse, i, acc);
    }
  }

  /** An entry inserted without overwriting shares neither chord nor instruction with an earlier one. */
  lemma LoadStepClean(s: SaveDataStore, order: seq<string>, parse: string -> Option<Chord>,
                      i: nat, acc: Bimap<Chord, Instruction>)
    requires i < |order|
    requires forall j | 0 <= j < |order| :: order[j] in s.shortcuts
    requires Accumulated(s, order, parse, i, acc)
    requires parse(order[i]).Some?
    requires parse(order[i]).value !in acc.fwd && s.shortcuts[order[i]] !in acc.bwd
    ensures Clean(s, order, parse, i + 1)
  {
    var c := parse(order[i]).value;
    var v := s.shortcuts[order[i]];
    forall j | 0 <= j < i
      ensures parse(order[j]) != parse(order[i]) && s.shortcuts[order[j]] != v
    {
      assert ParsedAt(s, order, parse, j, parse(order[j]).value, s.shortcuts[order[j]]);
      assert Paired(acc, parse(order[j]).value, s.shortcuts[order[j]]);
    }
  }

  /** Inserting such an entry pairs exactly the first `i + 1` entries. */
  lemma LoadStepPairs(s: SaveDataStore, order: seq<string>, parse: string -> Option<Chord>,
                      i: nat, acc: Bimap<Chord, Instruction>)
    requires i < |order|
    requires forall j | 0 <= j < |order| :: order[j] in s.shortcuts
    requires Accumulated(s, order, parse, i, acc)
    requires parse(order[i]).Some?
    requires parse(order[i]).value !in acc.fwd && s.shortcuts[order[i]] !in acc.bwd
    ensures var m := Bimaps.Insert(acc, parse(order[i]).value, s.shortcuts[order[i]]).0;
      && Valid(m)
      && forall c', v' :: Paired(m, c', v') <==> exists j :: 0 <= j < i + 1 && ParsedAt(s, order, parse, j, c', v')
  {
    var c := parse(order[i]).value;
    var v := s.shortcuts[order[i]];
    InsertSpec(acc, c, v);
    LoadStepClean(s, order, parse, i, acc);
    var m := Bimaps.Insert(acc, c, v).0;
    forall c', v'
      ensures Paired(m, c', v') <==> exists j :: 0 <= j < i + 1 && ParsedAt(s, order, parse, j, c', v')
    {
      if Paired(m, c', v') && !(c' == c && v' == v) {
        assert Paired(acc, c', v');
      }
      if c' == c && v' == v {
        assert ParsedAt(s, order, parse, i, c', v');
      }
      if exists j :: 0 <= j < i && ParsedAt(s, order, parse, j, c', v') {
        var j :| 0 <= j < i && ParsedAt(s, order, parse, j, c', v');
        assert Paired(acc, c', v');
        assert parse(order[j]) != parse(order[i]) && s.shortcuts[order[j]] != v;
      }
    }
  }

  /** An overwriting insert is a collision with an earlier entry. */
  lemma LoadStepConflict(s: SaveDataStore, order: seq<string>, parse: string -> Option<Chord>,
                         i: nat, acc: Bimap<Chord, Instruction>)
    requires i < |order|
    requires forall j | 0 <= j < |order| :: order[j] in s.shortcuts
    requires Accumulated(s, order, parse, i, acc)
    requires parse(order[i]).Some?
    requires !Bimaps.Insert(acc, parse(order[i]).value, s.shortcuts[order[i]]).1.Neither?
    ensures FailsAt(s, order, parse, i, Conflict(order[i], Bimaps.Insert(acc, parse(order[i]).value, s.shortcuts[order[i]]).1))
  {
    var c := parse(order[i]).value;
    var v := s.shortcuts[order[i]];
    InsertOverwritten(acc, c, v);
    if c in acc.fwd {
      assert Paired(acc, c, acc.fwd[c]);
      var j :| 0 <= j < i && ParsedAt(s, order, parse, j, c, acc.fwd[c]);
      assert parse(order[j]) == parse(order[i]);
    } else {
      assert v in acc.bwd;
      assert Paired(acc, acc.bwd[v], v);
      var j :| 0 <= j < i && ParsedAt(s, order, parse, j, acc.bwd[v], v);
      assert s.shortcuts[order[j]] == v;
    }
  }

  /**
   * Entry `k` is where the walk stops with error `e`: it does not parse
   * (`Syntax`), or it collides on the chord or the instruction with an
   * earlier entry (`Conflict`, never `Neither`).
   */
  ghost predicate FailsAt(s: SaveDataStore, order: seq<string>, parse: string -> Option<Chord>, k: nat, e: LoadError)
    requires k < |order|
    requires forall j | 0 <= j < |order| :: order[j] in s.shortcuts
  {
    match e
    case Syntax(str) => str == order[k] && parse(order[k]).None?
    case Conflict(str, ov) =>
      && str == order[k] && parse(order[k]).Some? && !ov.Neither?
      && exists j :: 0 <= j < k &&
           (parse(order[j]) == parse(order[k]) || s.shortcuts[order[j]] == s.shortcuts[order[k]])
    case FileError(_) => false
  }

  /** The live data: the shortcut table and the recently used folders (`SaveData`). */
  class SaveData {
    var table: Bimap<Chord, Instruction>
    var cachedDirs: seq<Path>

    constructor (table: Bimap<Chord, Instruction>, cachedDirs: seq<Path>)
      ensures this.table == table && this.cachedDirs == cachedDirs
    {
      this.table := table;
      this.cachedDirs := cachedDirs;
    }
  }

  /**
   * `into`: walk the stored pairs, parsing each chord and inserting it into
   * an empty bijection; the first unparseable string or collision fails
   * the whole load.  On success the folder list passes through.
   */
  method Into(s: SaveDataStore, order: seq<string>, parse: string -> Option<Chord>)
    returns (r: Result<SaveData, LoadError>)
    requires Enumerates(order, s.shortcuts.Keys)
    ensures var spec := LoadFrom(s, order, parse, 0, Bimaps.Empty());
      && (r.Ok? <==> spec.Ok?)
      && (r.Ok? ==> fresh(r.value) && r.value.table == spec.value && r.value.cachedDirs == s.cachedDirs)
      && (r.Err? ==> r.error == spec.error)
  {
    var shortcuts := Bimaps.Empty();
    var i := 0;
    while i < |order|
      invariant 0 <= i <= |order|
      invariant LoadFrom(s, order, parse, 0, Bimaps.Empty()) == LoadFrom(s, order, parse, i, shortcuts)
    {
      var key := order[i];
      match parse(key) {
        case None =>
          return Err(Syntax(key));
        case Some(c) =>
          var (m, ov) := Bimaps.Insert(shortcuts, c, s.shortcuts[key]);
          if !ov.Neither? {
            return Err(Conflict(key, ov));
          }
          shortcuts := m;
      }
      i := i + 1;
    }
    var data := new SaveData(shortcuts, s.cachedDirs);
    r := Ok(data);
  }

  /** Every stored chord string parses, and no two entries share a chord or an instruction. */
  ghost predicate KeysClean(s: SaveDataStore, parse: string -> Option<Chord>)
  {
    && (forall k | k in s.shortcuts :: parse(k).Some?)
    && (forall k1, k2 | k1 in s.shortcuts && k2 in s.shortcuts && k1 != k2 ::
          parse(k1) != parse(k2) && s.shortcuts[k1] != s.shortcuts[k2])
  }

  /** Some stored entry parses to `c` and maps to `v`. */
  ghost predicate Stored(s: SaveDataStore, parse: string -> Option<Chord>, c: Chord, v: Instruction)
  {
    exists k :: k in s.shortcuts && parse(k) == Some(c) && s.shortcuts[k] == v
  }

  /** Cleanliness of a full walk does not depend on the walk's order. */
  lemma CleanKeys(s: SaveDataStore, order: seq<string>, parse: string -> Option<Chord>)
    requires Enumerates(order, s.shortcuts.Keys)
    ensures Clean(s, order, parse, |order|) <==> KeysClean(s, parse)
  {
    if Clean(s, order, parse, |order|) {
      forall k | k in s.shortcuts
        ensures parse(k).Some?
      {
        var j :| 0 <= j < |order| && order[j] == k;
      }
      forall k1, k2 | k1 in s.shortcuts && k2 in s.shortcuts && k1 != k2
        ensures parse(k1) != parse(k2) && s.shortcuts[k1] != s.shortcuts[k2]
      {
        var j1 :| 0 <= j1 < |order| && order[j1] == k1;
        var j2 :| 0 <= j2 < |order| && order[j2] == k2;
        if j1 > j2 {
        }
      }
    }
  }

  /** A pair met somewhere on a full walk is a stored pair, and conversely. */
  lemma StoredAt(s: SaveDataStore, order: seq<string>, parse: string -> Option<Chord>, c: Chord, v: Instruction)
    requires Enumerates(order, s.shortcuts.Keys)
    ensures (exists j :: 0 <= j < |order| && ParsedAt(s, order, parse, j, c, v)) <==> Stored(s, parse, c, v)
  {
    if Stored(s, parse, c, v) {
      var k :| k in s.shortcuts && parse(k) == Some(c) && s.shortcuts[k] == v;
      var j :| 0 <= j < |order| && order[j] == k;
      assert ParsedAt(s, order, parse, j, c, v);
    }
  }

  /**
   * Loading succeeds exactly when every chord string parses and the parsed
   * pairs share no chord and no instruction; the table is then the
   * bijection of exactly those pairs.  A failure is the first entry of the
   * walk that does not parse or collides with an earlier one.
   */
  lemma LoadSpec(s: SaveDataStore, order: seq<string>, parse: string -> Option<Chord>)
    requires Enumerates(order, s.shortcuts.Keys)
    ensures var r := LoadFrom(s, order, parse, 0, Bimaps.Empty());
      && (r.Ok? <==> KeysClean(s, parse))
      && (r.Ok? ==> Valid(r.value))
      && (r.Ok? ==> forall c, v :: Paired(r.value, c, v) <==> Stored(s, parse, c, v))
      && (r.Err? ==> exists k :: 0 <= k < |order| && Clean(s, order, parse, k) && FailsAt(s, order, parse, k, r.error))
  {
    var e: Bimap<Chord, Instruction> := Bimaps.Empty();
    LoadFromSpec(s, order, parse, 0, e);
    CleanKeys(s, order, parse);
    var r := LoadFrom(s, order, parse, 0, e);
    if r.Ok? {
      forall c, v
        ensures Paired(r.value, c, v) <==> Stored(s, parse, c, v)
      {
        StoredAt(s, order, parse, c, v);
      }
    }
  }

  // ---------------------------------------------------------------------
  // Saving
  // ---------------------------------------------------------------------

  /**
   * The string-keyed map `from` collects, walking the chords in `order`
   * (a later string equal to an earlier one replaces it).
   */
  function Collect(fwd: map<Chord, Instruction>, order: seq<Chord>, show: Chord -> string): map<string, Instruction>
    requires forall i | 0 <= i < |order| :: order[i] in fwd
  {
    if order == [] then map[]
    else
      var last := order[|order| - 1];
      Collect(fwd, order[..|order| - 1], show)[show(last) := fwd[last]]
  }

  /** With `show` inverted by `parse`, every chord gets its own string, carrying its instruction. */
  lemma {:induction false} CollectSpec(fwd: map<Chord, Instruction>, order: seq<Chord>,
                                       show: Chord -> string, parse: string -> Option<Chord>)
    requires forall i | 0 <= i < |order| :: order[i] in fwd
    requires forall c :: parse(show(c)) == Some(c)
    ensures forall k | k in Collect(fwd, order, show) ::
      && parse(k).Some? && parse(k).value in order
      && show(parse(k).value) == k && Collect(fwd, order, show)[k] == fwd[parse(k).value]
    ensures forall c | c in order :: show(c) in Collect(fwd, order, show)
    decreases |order|
  {
    if order != [] {
      var init := order[..|order| - 1];
      CollectSpec(fwd, init, show, parse);
      forall c | c in init
        ensures c in order
      {
        var i :| 0 <= i < |init| && init[i] == c;
        assert order[i] == c;
      }
      assert order == init + [order[|order| - 1]];
    }
  }

  /**
   * `from`: take the table and the folder list out of the live data
   * (leaving it empty) and emit one string-keyed entry per binding.
   */
  method From(data: SaveData, order: seq<Chord>, show: Chord -> string) returns (s: SaveDataStore)
    requires Enumerates(order, data.table.fwd.Keys)
    modifies data
    ensures data.table == Bimaps.Empty() && data.cachedDirs == []
    ensures s == SaveDataStore(Collect(old(data.table).fwd, order, show), old(data.cachedDirs))
  {
    var shortcuts := data.table;
    data.table := Bimaps.Empty();
    var dirs := data.cachedDirs;
    data.cachedDirs := [];
    s := SaveDataStore(Collect(shortcuts.fwd, order, show), dirs);
  }

  /**
   * Saving and loading again gives back the same bindings and folders
   * when the string conversions are inverse to each other: the collected
   * entries all parse, and the parsed pairs are exactly the original
   * table's.
   */
  lemma RoundTrip(table: Bimap<Chord, Instruction>, dirs: seq<Path>, order: seq<Chord>, order': seq<string>,
                  show: Chord -> string, parse: string -> Option<Chord>)
    requires Valid(table)
    requires Enumerates(order, table.fwd.Keys)
    requires forall c :: parse(show(c)) == Some(c)
    requires Enumerates(order', Collect(table.fwd, order, show).Keys)
    ensures var r := LoadFrom(SaveDataStore(Collect(table.fwd, order, show), dirs), order', parse, 0, Bimaps.Empty());
      r.Ok? && r.value == table
  {
    var s := SaveDataStore(Collect(table.fwd, order, show), dirs);
    CollectSpec(table.fwd, order, show, parse);
    LoadSpec(s, order', parse);
    forall k1, k2 | k1 in s.shortcuts && k2 in s.shortcuts && k1 != k2
      ensures parse(k1) != parse(k2) && s.shortcuts[k1] != s.shortcuts[k2]
    {
      var c1, c2 := parse(k1).value, parse(k2).value;
      assert c1 in table.fwd && c2 in table.fwd;
    }
    assert KeysClean(s, parse);
    var r := LoadFrom(s, order', parse, 0, Bimaps.Empty());
    var m := r.value;
    forall c, v
      ensures Paired(m, c, v) <==> Paired(table, c, v)
    {
      if Paired(table, c, v) {
        assert c in order;
        assert show(c) in s.shortcuts && parse(show(c)) == Some(c) && s.shortcuts[show(c)] == v;
      }
      if Paired(m, c, v) {
        var k :| k in s.shortcuts && parse(k) == Some(c) && s.shortcuts[k] == v;
      }
    }
    BimapExt(m, table);
  }

  /** Two bijections with the same pairs are equal. */
  lemma BimapExt(a: Bimap<Chord, Instruction>, b: Bimap<Chord, Instruction>)
    requires Valid(a) && Valid(b)
    requires forall c, v :: Paired(a, c, v) <==> Paired(b, c, v)
    ensures a == b
  {
    SameForward(a, b);
    SameBackward(a, b);
  }

  lemma SameForward(a: Bimap<Chord, Instruction>, b: Bimap<Chord, Instruction>)
    requires forall c, v :: Paired(a, c, v) <==> Paired(b, c, v)
    ensures a.fwd == b.fwd
  {
    forall c | c in a.fwd ensures c in b.fwd && a.fwd[c] == b.fwd[c] { assert Paired(a, c, a.fwd[c]); }
    forall c | c in b.fwd ensures c in a.fwd { assert Paired(b, c, b.fwd[c]); }
  }

  lemma SameBackward(a: Bimap<Chord, Instruction>, b: Bimap<Chord, Instruction>)
    requires Valid(a) && Valid(b)
    requires forall c, v :: Paired(a, c, v) <==> Paired(b, c, v)
    ensures a.bwd == b.bwd
  {
    forall v | v in a.bwd ensures v in b.bwd && a.bwd[v] == b.bwd[v] { assert Paired(a, a.bwd[v], v); }
    forall v | v in b.bwd ensures v in a.bwd { assert Paired(b, b.bwd[v], v); }
  }

  // ---------------------------------------------------------------------
  // Start-up
  // ---------------------------------------------------------------------

  /**
   * `SaveData::recover`: `file` is what `SaveDataStore::recover` produced
   * (an error, no file, or the decoded store).  No file gives the
   * defaults; a decoded store goes through `into`, whose error is passed
   * on.
   */
  method Recover(file: Result<Option<SaveDataStore>, LoadError>, order: seq<string>, parse: string -> Option<Chord>)
    returns (r: Result<SaveData, LoadError>)
    requires file.Ok? && file.value.Some? ==> Enumerates(order, file.value.value.shortcuts.Keys)
    ensures file.Err? ==> r == Err(file.error)
    ensures file == Ok(None) ==> r.Ok? && fresh(r.value) && r.value.table == DefaultTable() && r.value.cachedDirs == []
    ensures file.Ok? && file.value.Some? ==>
      var spec := LoadFrom(file.value.value, order, parse, 0, Bimaps.Empty());
      && (r.Ok? <==> spec.Ok?)
      && (r.Ok? ==> r.value.table == spec.value && r.value.cachedDirs == file.value.value.cachedDirs)
      && (r.Err? ==> r.error == spec.error)
  {
    match file {
      case Err(e) =>
        r := Err(e);
      case Ok(None) =>
        var data := new SaveData(DefaultTable(), []);
        r := Ok(data);
      case Ok(Some(s)) =>
        r := Into(s, order, parse);
    }
  }
}
