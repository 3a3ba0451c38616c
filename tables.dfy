/** Tabular values shared by every dashboard: pandas-like cells, rows and
    frames, first-appearance `unique`, `list.index`, insertion-ordered
    dictionaries, row filtering and a lexicographic string order with a sort. */
module Tables {

  datatype Option<T> = None | Some(value: T)

  /** The Python exceptions the modelled code can raise. */
  datatype PyError = KeyError | ValueError | IndexError | ZeroDivisionError | AttributeError | TypeError

  datatype Result<T> = Ok(value: T) | Err(error: PyError)

  /** One pandas cell: a missing value (NaN or None), a float, or a string label. */
  datatype Cell = Missing | Num(x: real) | Str(s: string)

  /** A row of a frame: its index label and its cells by column name. */
  datatype Row = Row(index: string, cells: map<string, Cell>)

  /** A frame: its column order and its rows in order. */
  datatype Frame = Frame(columns: seq<string>, rows: seq<Row>)

  predicate NoDups<T(==)>(s: seq<T>) {
    forall i, j :: 0 <= i < j < |s| ==> s[i] != s[j]
  }

  /** Every row has exactly the frame's columns. */
  ghost predicate WellFormed(f: Frame) {
    && NoDups(f.columns)
    && forall k :: 0 <= k < |f.rows| ==> f.rows[k].cells.Keys == set c | c in f.columns
  }

  /** `row[c]`, reading an absent column as missing. */
  function Get(r: Row, c: string): Cell {
    if c in r.cells then r.cells[c] else Missing
  }

  /** The column `c` of `f`, top to bottom. */
  function Column(f: Frame, c: string): (col: seq<Cell>)
    ensures |col| == |f.rows|
    ensures forall k :: 0 <= k < |f.rows| ==> col[k] == Get(f.rows[k], c)
  {
    seq(|f.rows|, k requires 0 <= k < |f.rows| => Get(f.rows[k], c))
  }

  /** `df[c] = vals`: replaces column `c` in place, or appends it when new. */
  function SetColumn(f: Frame, c: string, vals: seq<Cell>): (g: Frame)
    requires |vals| == |f.rows|
    ensures |g.rows| == |f.rows|
    ensures g.columns == if c in f.columns then f.columns else f.columns + [c]
    ensures forall k :: 0 <= k < |f.rows| ==>
              g.rows[k].index == f.rows[k].index && g.rows[k].cells == f.rows[k].cells[c := vals[k]]
    ensures WellFormed(f) ==> WellFormed(g)
  {
    var g := Frame(if c in f.columns then f.columns else f.columns + [c],
                   seq(|f.rows|, k requires 0 <= k < |f.rows| => Row(f.rows[k].index, f.rows[k].cells[c := vals[k]])));
    assert WellFormed(f) ==> NoDups(g.columns) by {
      if WellFormed(f) && c !in f.columns {
        forall i, j | 0 <= i < j < |g.columns| ensures g.columns[i] != g.columns[j] {
          if j == |f.columns| { assert g.columns[i] == f.columns[i]; }
        }
      }
    }
    g
  }

  /** Reading back a column just written gives the values written. */
  lemma ColumnOfSet(f: Frame, c: string, vals: seq<Cell>)
    requires |vals| == |f.rows|
    ensures Column(SetColumn(f, c, vals), c) == vals
  {
  }

  /** The elements of `s` that satisfy `p`, in their order. */
  function Filter<T>(s: seq<T>, p: T -> bool): (r: seq<T>)
    ensures |r| <= |s|
    ensures forall k :: 0 <= k < |r| ==> r[k] in s && p(r[k])
    ensures forall k :: 0 <= k < |s| && p(s[k]) ==> s[k] in r
  {
    if s == [] then []
    else if p(s[0]) then [s[0]] + Filter(s[1..], p)
    else Filter(s[1..], p)
  }

  /** A filter that rejects nothing returns its input. */
  lemma {:induction false} FilterKeepsAll<T>(s: seq<T>, p: T -> bool)
    requires forall k :: 0 <= k < |s| ==> p(s[k])
    ensures Filter(s, p) == s
  {
    if s != [] {
      assert p(s[0]);
      FilterKeepsAll(s[1..], p);
    }
  }

  /** A filter that keeps nothing returns the empty sequence. */
  lemma {:induction false} FilterNone<T>(s: seq<T>, p: T -> bool)
    requires forall k :: 0 <= k < |s| ==> !p(s[k])
    ensures Filter(s, p) == []
  {
    if s != [] {
      assert !p(s[0]);
      FilterNone(s[1..], p);
    }
  }

  /** A filter of a concatenation is the concatenation of the filters. */
  lemma {:induction false} FilterAppend<T>(s: seq<T>, t: seq<T>, p: T -> bool)
    ensures Filter(s + t, p) == Filter(s, p) + Filter(t, p)
  {
    if s == [] {
      assert s + t == t;
    } else {
      assert (s + t)[1..] == s[1..] + t;
      FilterAppend(s[1..], t, p);
    }
  }

  /** `idx` lists, in increasing order, the positions of `s` whose elements
      make up `r`; each passes `p`, and every position of `s` that passes `p`
      is listed. So `r` keeps the order and the repetitions of `s`. */
  ghost predicate KeptAt<T>(r: seq<T>, s: seq<T>, p: T -> bool, idx: seq<nat>) {
    && |idx| == |r|
    && (forall k :: 0 <= k < |idx| ==> idx[k] < |s| && r[k] == s[idx[k]] && p(s[idx[k]]))
    && (forall k, l :: 0 <= k < l < |idx| ==> idx[k] < idx[l])
    && (forall i :: 0 <= i < |s| && p(s[i]) ==> i in idx)
  }

  /** The positions a filter keeps, as a boolean mask `s[mask]` selects them. */
  ghost function KeptPositions<T>(s: seq<T>, p: T -> bool): (idx: seq<nat>)
    ensures KeptAt(Filter(s, p), s, p, idx)
    decreases |s|
  {
    if s == [] then []
    else
      var rest := KeptPositions(s[1..], p);
      var shifted := seq(|rest|, k requires 0 <= k < |rest| => rest[k] + 1);
      if p(s[0]) then ConsPositions(s, p, rest, shifted); [0] + shifted
      else ShiftedPositions(s, p, rest, shifted); shifted
  }

  /** Positions of the tail, moved one place right: the filter of `s` when its head is dropped. */
  lemma ShiftedPositions<T>(s: seq<T>, p: T -> bool, rest: seq<nat>, shifted: seq<nat>)
    requires s != [] && !p(s[0]) && KeptAt(Filter(s[1..], p), s[1..], p, rest)
    requires |shifted| == |rest| && forall k :: 0 <= k < |rest| ==> shifted[k] == rest[k] + 1
    ensures KeptAt(Filter(s, p), s, p, shifted)
  {
    assert Filter(s, p) == Filter(s[1..], p);
    ShiftedCovers(s, p, rest, shifted);
  }

  /** With its head kept, the filter of `s` takes position 0 before the tail's positions. */
  lemma ConsPositions<T>(s: seq<T>, p: T -> bool, rest: seq<nat>, shifted: seq<nat>)
    requires s != [] && p(s[0]) && KeptAt(Filter(s[1..], p), s[1..], p, rest)
    requires |shifted| == |rest| && forall k :: 0 <= k < |rest| ==> shifted[k] == rest[k] + 1
    ensures KeptAt(Filter(s, p), s, p, [0] + shifted)
  {
    assert Filter(s, p) == [s[0]] + Filter(s[1..], p);
    ShiftedCovers(s, p, rest, shifted);
    ConsKept(s, p, Filter(s[1..], p), shifted);
  }

  lemma ConsKept<T>(s: seq<T>, p: T -> bool, tail: seq<T>, shifted: seq<nat>)
    requires s != [] && p(s[0]) && |shifted| == |tail|
    requires forall k :: 0 <= k < |shifted| ==> 1 <= shifted[k] < |s| && tail[k] == s[shifted[k]] && p(s[shifted[k]])
    requires forall k, l :: 0 <= k < l < |shifted| ==> shifted[k] < shifted[l]
    requires forall i :: 1 <= i < |s| && p(s[i]) ==> i in shifted
    ensures KeptAt([s[0]] + tail, s, p, [0] + shifted)
  {
    ConsPicks(s, p, tail, shifted);
    ConsOrdered(shifted);
    ConsCovers(s, p, shifted);
  }

  lemma ConsPicks<T>(s: seq<T>, p: T -> bool, tail: seq<T>, shifted: seq<nat>)
    requires s != [] && p(s[0]) && |shifted| == |tail|
    requires forall k :: 0 <= k < |shifted| ==> 1 <= shifted[k] < |s| && tail[k] == s[shifted[k]] && p(s[shifted[k]])
    ensures var r, idx := [s[0]] + tail, [0] + shifted;
      forall k :: 0 <= k < |idx| ==> idx[k] < |s| && r[k] == s[idx[k]] && p(s[idx[k]])
  {
    var r, idx := [s[0]] + tail, [0] + shifted;
    forall k | 1 <= k < |idx| ensures idx[k] < |s| && r[k] == s[idx[k]] && p(s[idx[k]]) {
      assert idx[k] == shifted[k - 1] && r[k] == tail[k - 1];
    }
  }

  lemma ConsOrdered(shifted: seq<nat>)
    requires forall k :: 0 <= k < |shifted| ==> 1 <= shifted[k]
    requires forall k, l :: 0 <= k < l < |shifted| ==> shifted[k] < shifted[l]
    ensures var idx := [0] + shifted; forall k, l :: 0 <= k < l < |idx| ==> idx[k] < idx[l]
  {
    var idx := [0] + shifted;
    forall k, l | 0 <= k < l < |idx| ensures idx[k] < idx[l] {
      assert idx[l] == shifted[l - 1];
      if k > 0 {
        assert idx[k] == shifted[k - 1];
      }
    }
  }

  lemma ConsCovers<T>(s: seq<T>, p: T -> bool, shifted: seq<nat>)
    requires forall i :: 1 <= i < |s| && p(s[i]) ==> i in shifted
    ensures forall i :: 0 <= i < |s| && p(s[i]) ==> i in [0] + shifted
  {
  }

  /** The shifted tail positions name the tail's kept elements within `s`. */
  lemma ShiftedCovers<T>(s: seq<T>, p: T -> bool, rest: seq<nat>, shifted: seq<nat>)
    requires s != [] && KeptAt(Filter(s[1..], p), s[1..], p, rest)
    requires |shifted| == |rest| && forall k :: 0 <= k < |rest| ==> shifted[k] == rest[k] + 1
    ensures forall k :: 0 <= k < |shifted| ==> 1 <= shifted[k] < |s| && Filter(s[1..], p)[k] == s[shifted[k]] && p(s[shifted[k]])
    ensures forall k, l :: 0 <= k < l < |shifted| ==> shifted[k] < shifted[l]
    ensures forall i :: 1 <= i < |s| && p(s[i]) ==> i in shifted
  {
    forall k | 0 <= k < |shifted| ensures 1 <= shifted[k] < |s| && Filter(s[1..], p)[k] == s[shifted[k]] && p(s[shifted[k]]) {
      assert s[1..][rest[k]] == s[rest[k] + 1];
    }
    forall i | 1 <= i < |s| && p(s[i]) ensures i in shifted {
      assert s[1..][i - 1] == s[i];
      var k :| 0 <= k < |rest| && rest[k] == i - 1;
      assert shifted[k] == i;
    }
  }

  /** `list.index(x)`: the first position of `x`, or None where Python raises ValueError. */
  function Find<T(==)>(s: seq<T>, x: T): (r: Option<nat>)
    ensures r.None? <==> x !in s
    ensures r.Some? ==> r.value < |s| && s[r.value] == x && forall k :: 0 <= k < r.value ==> s[k] != x
  {
    if s == [] then None
    else if s[0] == x then Some(0)
    else match Find(s[1..], x)
      case None => None
      case Some(i) => Some(i + 1)
  }

  /** `Series.unique()`: the distinct elements in order of first appearance. */
  function Unique<T(==)>(s: seq<T>): (u: seq<T>)
    ensures NoDups(u)
    ensures forall k :: 0 <= k < |u| ==> u[k] in s
    ensures forall k :: 0 <= k < |s| ==> s[k] in u
    ensures |u| <= |s|
  {
    if s == [] then []
    else
      var u := Unique(s[..|s| - 1]);
      var x := s[|s| - 1];
      assert forall k :: 0 <= k < |s| - 1 ==> s[k] == s[..|s| - 1][k];
      if x in u then u else u + [x]
  }

  /** `Unique` lists the distinct elements by their first position in `s`. */
  lemma {:induction false} UniqueFirstAppearance<T>(s: seq<T>, i: nat, j: nat)
    requires i < j < |Unique(s)|
    ensures Find(s, Unique(s)[i]).Some? && Find(s, Unique(s)[j]).Some?
    ensures Find(s, Unique(s)[i]).value < Find(s, Unique(s)[j]).value
  {
    var u := Unique(s);
    var s' := s[..|s| - 1];
    var u' := Unique(s');
    var x := s[|s| - 1];
    assert s == s' + [x];
    FindInPrefix(s', x, u[i]);
    if x in u' {
      UniqueFirstAppearance(s', i, j);
      FindInPrefix(s', x, u[j]);
    } else if j < |u'| {
      UniqueFirstAppearance(s', i, j);
      FindInPrefix(s', x, u[j]);
    } else {
      assert u[j] == x && x !in s';
      assert u[i] == u'[i] && u[i] in s';
    }
  }

  /** All of `UniqueFirstAppearance` at once. */
  lemma UniqueOrder<T>(s: seq<T>)
    ensures forall i, j :: 0 <= i < j < |Unique(s)| ==>
              Find(s, Unique(s)[i]).Some? && Find(s, Unique(s)[j]).Some? && Find(s, Unique(s)[i]).value < Find(s, Unique(s)[j]).value
  {
    assert forall k :: 0 <= k < |Unique(s)| ==> Find(s, Unique(s)[k]).Some?;
    forall i, j | 0 <= i < j < |Unique(s)| ensures Find(s, Unique(s)[i]).value < Find(s, Unique(s)[j]).value {
      UniqueFirstAppearance(s, i, j);
    }
  }

  /** Appending an element does not move an earlier first occurrence. */
  lemma {:induction false} FindInPrefix<T>(s: seq<T>, x: T, y: T)
    ensures y in s ==> Find(s + [x], y) == Find(s, y)
    ensures y !in s && y == x ==> Find(s + [x], y) == Some(|s|)
  {
    if s != [] {
      assert (s + [x])[1..] == s[1..] + [x];
      FindInPrefix(s[1..], x, y);
    }
  }

  /** An insertion-ordered Python dict. */
  type Dict<K, V> = seq<(K, V)>

  function Keys<K, V>(d: Dict<K, V>): (ks: seq<K>)
    ensures |ks| == |d| && forall i :: 0 <= i < |d| ==> ks[i] == d[i].0
  {
    seq(|d|, i requires 0 <= i < |d| => d[i].0)
  }

  function Values<K, V>(d: Dict<K, V>): (vs: seq<V>)
    ensures |vs| == |d| && forall i :: 0 <= i < |d| ==> vs[i] == d[i].1
  {
    seq(|d|, i requires 0 <= i < |d| => d[i].1)
  }

  /** `d[k]`: the value stored under `k`, or None where Python raises KeyError. */
  function Lookup<K(==), V>(d: Dict<K, V>, k: K): (r: Option<V>)
    ensures r.None? <==> k !in Keys(d)
    ensures r.Some? ==> exists i :: 0 <= i < |d| && d[i] == (k, r.value)
  {
    match Find(Keys(d), k)
    case None => None
    case Some(i) => Some(d[i].1)
  }

  /** `list(d.keys())[list(d.values()).index(v)]`: the first key whose value is `v`. */
  function KeyOf<K, V(==)>(d: Dict<K, V>, v: V): (r: Option<K>)
    ensures r.None? <==> forall i :: 0 <= i < |d| ==> d[i].1 != v
    ensures r.Some? ==> exists i :: 0 <= i < |d| && d[i] == (r.value, v) && forall j :: 0 <= j < i ==> d[j].1 != v
  {
    match Find(Values(d), v)
    case None => None
    case Some(i) => Some(Keys(d)[i])
  }

  /** When both keys and values are distinct, looking up a key's value gives the key back. */
  lemma KeyOfLookup<K, V>(d: Dict<K, V>, i: nat)
    requires i < |d| && NoDups(Keys(d)) && NoDups(Values(d))
    ensures KeyOf(d, d[i].1) == Some(d[i].0)
    ensures Lookup(d, d[i].0) == Some(d[i].1)
  {
    assert Values(d)[i] == d[i].1;
    assert Keys(d)[i] == d[i].0;
  }

  /** Lexicographic order on strings, as Python compares `str`. */
  predicate LexLe(a: string, b: string) {
    if a == [] then true
    else if b == [] then false
    else if a[0] != b[0] then a[0] < b[0]
    else LexLe(a[1..], b[1..])
  }

  lemma {:induction false} LexLeTotal(a: string, b: string)
    ensures LexLe(a, b) || LexLe(b, a)
  {
    if a != [] && b != [] && a[0] == b[0] { LexLeTotal(a[1..], b[1..]); }
  }

  lemma {:induction false} LexLeTransitive(a: string, b: string, c: string)
    requires LexLe(a, b) && LexLe(b, c)
    ensures LexLe(a, c)
  {
    if a != [] && b != [] && c != [] && a[0] == b[0] && b[0] == c[0] {
      LexLeTransitive(a[1..], b[1..], c[1..]);
    }
  }

  lemma {:induction false} LexLeAntisymmetric(a: string, b: string)
    requires LexLe(a, b) && LexLe(b, a)
    ensures a == b
  {
    if a != [] && b != [] {
      LexLeAntisymmetric(a[1..], b[1..]);
      assert a == [a[0]] + a[1..] && b == [b[0]] + b[1..];
    }
  }

  /** `x` may precede `y` when sorting by `key`, ascending or descending. */
  predicate Before<T>(x: T, y: T, key: T -> string, descending: bool) {
    if descending then LexLe(key(y), key(x)) else LexLe(key(x), key(y))
  }

  lemma BeforeTotal<T>(x: T, y: T, key: T -> string, descending: bool)
    ensures Before(x, y, key, descending) || Before(y, x, key, descending)
  {
    LexLeTotal(key(x), key(y));
  }

  lemma BeforeTransitive<T>(x: T, y: T, z: T, key: T -> string, descending: bool)
    requires Before(x, y, key, descending) && Before(y, z, key, descending)
    ensures Before(x, z, key, descending)
  {
    if descending { LexLeTransitive(key(z), key(y), key(x)); }
    else { LexLeTransitive(key(x), key(y), key(z)); }
  }

  predicate SortedBy<T>(s: seq<T>, key: T -> string, descending: bool) {
    forall i, j :: 0 <= i < j < |s| ==> Before(s[i], s[j], key, descending)
  }

  /** Inserts `x` before the first element it may precede. */
  function Insert<T>(x: T, s: seq<T>, key: T -> string, descending: bool): (r: seq<T>)
    ensures multiset(r) == multiset(s) + multiset{x}
    ensures |r| == |s| + 1
  {
    if s == [] then [x]
    else if Before(x, s[0], key, descending) then [x] + s
    else
      assert s == [s[0]] + s[1..];
      [s[0]] + Insert(x, s[1..], key, descending)
  }

  lemma {:induction false} InsertSorted<T>(x: T, s: seq<T>, key: T -> string, descending: bool)
    requires SortedBy(s, key, descending)
    ensures SortedBy(Insert(x, s, key, descending), key, descending)
  {
    if s == [] {
    } else if Before(x, s[0], key, descending) {
      forall k | 0 <= k < |s| ensures Before(x, s[k], key, descending) {
        if k > 0 { BeforeTransitive(x, s[0], s[k], key, descending); }
      }
      ConsSorted(x, s, key, descending);
    } else {
      var t := Insert(x, s[1..], key, descending);
      InsertSorted(x, s[1..], key, descending);
      BeforeTotal(x, s[0], key, descending);
      InsertKeepsHeadFirst(x, s, key, descending);
      ConsSorted(s[0], t, key, descending);
    }
  }

  /** Every element of `t` may follow `y`. */
  predicate BeforeAll<T>(y: T, t: seq<T>, key: T -> string, descending: bool) {
    forall k :: 0 <= k < |t| ==> Before(y, t[k], key, descending)
  }

  lemma ConsSorted<T>(y: T, t: seq<T>, key: T -> string, descending: bool)
    requires SortedBy(t, key, descending) && BeforeAll(y, t, key, descending)
    ensures SortedBy([y] + t, key, descending)
  {
    var r := [y] + t;
    forall i, j | 0 <= i < j < |r| ensures Before(r[i], r[j], key, descending) {
      if i == 0 { assert r[j] == t[j - 1]; }
      else { assert r[i] == t[i - 1] && r[j] == t[j - 1]; }
    }
  }

  /** When `s[0]` precedes `x`, it precedes everything `x` is inserted into the tail with. */
  lemma InsertKeepsHeadFirst<T>(x: T, s: seq<T>, key: T -> string, descending: bool)
    requires SortedBy(s, key, descending) && s != [] && Before(s[0], x, key, descending)
    ensures BeforeAll(s[0], Insert(x, s[1..], key, descending), key, descending)
  {
    var t := Insert(x, s[1..], key, descending);
    forall k | 0 <= k < |t| ensures Before(s[0], t[k], key, descending) {
      assert t[k] in multiset(t);
      if t[k] != x {
        assert t[k] in multiset(s[1..]);
        var j :| 0 <= j < |s[1..]| && s[1..][j] == t[k];
        assert s[j + 1] == t[k];
      }
    }
  }

  /** A sort by `key` (pandas `sort_values`/`sort_index`): the result is ordered and a permutation. */
  function SortBy<T>(s: seq<T>, key: T -> string, descending: bool): (r: seq<T>)
    ensures SortedBy(r, key, descending)
    ensures multiset(r) == multiset(s)
    ensures |r| == |s|
  {
    if s == [] then []
    else
      assert s == s[..|s| - 1] + [s[|s| - 1]];
      var t := SortBy(s[..|s| - 1], key, descending);
      InsertSorted(s[|s| - 1], t, key, descending);
      Insert(s[|s| - 1], t, key, descending)
  }
}
