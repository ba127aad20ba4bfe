/** A Python `dict` from `str` to `int`. Python dicts remember insertion order
    (`get_key` and the symbols file both depend on it), so a dict is a map
    together with the order in which its keys were first inserted. Assigning an
    existing key keeps its position; `del` removes it from the order. */
module OrderedDict {
  import opened Wrappers

  datatype Dict = Dict(keys: seq<string>, values: map<string, int>) {

    /** The keys are listed once each, and exactly the keys of the map. */
    ghost predicate Valid()
    {
      && (forall i, j :: 0 <= i < j < |keys| ==> keys[i] != keys[j])
      && (forall k :: k in values <==> k in keys)
    }

    /** `d.get(k)` */
    function Get(k: string): Option<int>
    {
      if k in values then Some(values[k]) else None
    }

    /** `d[k] = v` */
    function Put(k: string, v: int): (d: Dict)
      requires Valid()
      ensures d.Valid()
    {
      Dict(if k in values then keys else keys + [k], values[k := v])
    }

    /** `del d[k]`; Python raises KeyError for a missing key. */
    function Remove(k: string): (d: Dict)
      requires Valid()
      requires k in values
      ensures d.Valid()
      ensures d.values == values - {k}
      ensures keys[0] == k ==> d.keys == keys[1..]
    {
      var i := IndexOf(keys, k);
      var rest := keys[..i] + keys[i + 1..];
      RemovedKeys(keys, i);
      Dict(rest, values - {k})
    }
  }

  /** Dropping position `i` of a list of distinct keys leaves the other keys,
      still distinct. */
  lemma RemovedKeys(keys: seq<string>, i: nat)
    requires i < |keys|
    requires forall a, b :: 0 <= a < b < |keys| ==> keys[a] != keys[b]
    ensures var rest := keys[..i] + keys[i + 1..];
            && (forall a, b :: 0 <= a < b < |rest| ==> rest[a] != rest[b])
            && (forall x :: x in rest <==> x in keys && x != keys[i])
            && (i == 0 ==> rest == keys[1..])
  {
    var rest := keys[..i] + keys[i + 1..];
    assert forall a :: 0 <= a < |rest| ==> rest[a] == if a < i then keys[a] else keys[a + 1];
    forall x | x in keys && x != keys[i] ensures x in rest {
      var j :| 0 <= j < |keys| && keys[j] == x;
      if j < i { assert rest[j] == x; } else { assert rest[j - 1] == x; }
    }
  }

  function Empty(): (d: Dict)
    ensures d.Valid()
  {
    Dict([], map[])
  }

  /** The position of `k` in `s`. */
  function IndexOf(s: seq<string>, k: string): (i: nat)
    requires k in s
    ensures i < |s| && s[i] == k
    ensures forall j :: 0 <= j < i ==> s[j] != k
  {
    if s[0] == k then 0 else 1 + IndexOf(s[1..], k)
  }

  /** A pending assignment either writes a key or does nothing (an entry the
      source skips with `continue` or an `if`). */
  type Write = Option<(string, int)>

  predicate Writes(w: Write, k: string)
  {
    w.Some? && w.value.0 == k
  }

  /** Performs the assignments `ws` on `d`, in order, as a Python for-loop of
      `d[k] = v` statements does. */
  function Assign(d: Dict, ws: seq<Write>): (r: Dict)
    requires d.Valid()
    ensures r.Valid()
    decreases |ws|
  {
    if |ws| == 0 then d
    else
      var before := Assign(d, ws[..|ws| - 1]);
      match ws[|ws| - 1]
      case None => before
      case Some((k, v)) => before.Put(k, v)
  }

  /** One more assignment at the end is one more `d[k] = v` on the result. */
  lemma AssignSnoc(d: Dict, ws: seq<Write>, w: Write)
    requires d.Valid()
    ensures Assign(d, ws + [w]) == match w
                                   case None => Assign(d, ws)
                                   case Some((k, v)) => Assign(d, ws).Put(k, v)
  {
    assert (ws + [w])[..|ws|] == ws;
  }

  /** After the assignments `ws`, a key is present iff it was present before or
      some assignment wrote it. */
  lemma {:induction false} AssignMembership(d: Dict, ws: seq<Write>, k: string)
    requires d.Valid()
    ensures k in Assign(d, ws).values <==> k in d.values || exists i :: 0 <= i < |ws| && Writes(ws[i], k)
    decreases |ws|
  {
    if |ws| > 0 {
      var n := |ws| - 1;
      assert ws == ws[..n] + [ws[n]];
      AssignSnoc(d, ws[..n], ws[n]);
      AssignMembership(d, ws[..n], k);
      assert forall i :: 0 <= i < n ==> ws[..n][i] == ws[i];
    }
  }

  /** A key's value is the one its LAST assignment wrote. */
  lemma {:induction false} AssignLastWrite(d: Dict, ws: seq<Write>, k: string, i: int)
    requires d.Valid()
    requires 0 <= i < |ws| && Writes(ws[i], k)
    requires forall j :: i < j < |ws| ==> !Writes(ws[j], k)
    ensures k in Assign(d, ws).values && Assign(d, ws).values[k] == ws[i].value.1
    decreases |ws|
  {
    var n := |ws| - 1;
    assert ws == ws[..n] + [ws[n]];
    AssignSnoc(d, ws[..n], ws[n]);
    if i < n {
      AssignLastWrite(d, ws[..n], k, i);
    }
  }

  /** A key nothing writes keeps its presence and its value. */
  lemma {:induction false} AssignUntouched(d: Dict, ws: seq<Write>, k: string)
    requires d.Valid()
    requires forall i :: 0 <= i < |ws| ==> !Writes(ws[i], k)
    ensures k in Assign(d, ws).values <==> k in d.values
    ensures k in d.values ==> Assign(d, ws).values[k] == d.values[k]
    decreases |ws|
  {
    if |ws| > 0 {
      var n := |ws| - 1;
      assert ws == ws[..n] + [ws[n]];
      AssignSnoc(d, ws[..n], ws[n]);
      AssignUntouched(d, ws[..n], k);
    }
  }

  /** After the assignments `ws`, a key is present iff it was present before or
      some assignment wrote it; its value is the one written LAST, or the old
      value if nothing wrote it. */
  lemma AssignLookup(d: Dict, ws: seq<Write>, k: string)
    requires d.Valid()
    ensures k in Assign(d, ws).values <==> k in d.values || exists i :: 0 <= i < |ws| && Writes(ws[i], k)
    ensures forall i :: 0 <= i < |ws| && Writes(ws[i], k) && (forall j :: i < j < |ws| ==> !Writes(ws[j], k)) ==>
              Assign(d, ws).values[k] == ws[i].value.1
    ensures (forall i :: 0 <= i < |ws| ==> !Writes(ws[i], k)) && k in d.values ==>
              Assign(d, ws).values[k] == d.values[k]
  {
    AssignMembership(d, ws, k);
    forall i | 0 <= i < |ws| && Writes(ws[i], k) && (forall j :: i < j < |ws| ==> !Writes(ws[j], k))
      ensures Assign(d, ws).values[k] == ws[i].value.1
    {
      AssignLastWrite(d, ws, k, i);
    }
    if forall i :: 0 <= i < |ws| ==> !Writes(ws[i], k) {
      AssignUntouched(d, ws, k);
    }
  }

  /** Assignments never move a key that is already there: the old order is a
      prefix of the new one. */
  lemma {:induction false} AssignKeepsOrder(d: Dict, ws: seq<Write>)
    requires d.Valid()
    ensures d.keys <= Assign(d, ws).keys
    decreases |ws|
  {
    if |ws| > 0 {
      AssignKeepsOrder(d, ws[..|ws| - 1]);
    }
  }

  /** The items of `m` as assignments, in `m`'s order. */
  function Items(m: Dict): (ws: seq<Write>)
    requires m.Valid()
  {
    seq(|m.keys|, i requires 0 <= i < |m.keys| => Some((m.keys[i], m.values[m.keys[i]])))
  }

  /** `d.update(m)` */
  function Merge(d: Dict, m: Dict): (r: Dict)
    requires d.Valid() && m.Valid()
    ensures r.Valid()
  {
    Assign(d, Items(m))
  }

  /** `d.update(m)` leaves exactly the map union, `m` winning on shared keys. */
  lemma MergeValues(d: Dict, m: Dict)
    requires d.Valid() && m.Valid()
    ensures Merge(d, m).values == d.values + m.values
  {
    var ws := Items(m);
    var r := Merge(d, m);
    forall k
      ensures k in r.values <==> k in d.values + m.values
      ensures k in r.values ==> r.values[k] == (d.values + m.values)[k]
    {
      if k in m.values {
        var i := IndexOf(m.keys, k);
        assert forall j :: i < j < |ws| ==> !Writes(ws[j], k);
        AssignLastWrite(d, ws, k, i);
      } else {
        assert forall i :: 0 <= i < |ws| ==> !Writes(ws[i], k);
        AssignUntouched(d, ws, k);
      }
    }
  }

  /** `{}.update(m)` lists the keys in `m`'s own order. */
  lemma MergeIntoEmpty(m: Dict)
    requires m.Valid()
    ensures Merge(Empty(), m).keys == m.keys
  {
    ItemsIntoEmpty(m, |m.keys|);
    assert Items(m)[..|m.keys|] == Items(m);
  }

  lemma {:induction false} ItemsIntoEmpty(m: Dict, n: nat)
    requires m.Valid() && n <= |m.keys|
    ensures Assign(Empty(), Items(m)[..n]).keys == m.keys[..n]
    decreases n
  {
    if n > 0 {
      var k := m.keys[n - 1];
      var before := Assign(Empty(), Items(m)[..n - 1]);
      ItemsStep(m, n);
      ItemsIntoEmpty(m, n - 1);
      NotInPrefix(m.keys, n - 1);
      PutFresh(before, k, m.values[k]);
      PrefixSnoc(m.keys, n);
    }
  }

  lemma PrefixSnoc(s: seq<string>, n: nat)
    requires 0 < n <= |s|
    ensures s[..n] == s[..n - 1] + [s[n - 1]]
  {
  }

  /** A key listed once is not among the keys before it. */
  lemma NotInPrefix(keys: seq<string>, i: nat)
    requires i < |keys|
    requires forall a, b :: 0 <= a < b < |keys| ==> keys[a] != keys[b]
    ensures keys[i] !in keys[..i]
  {
    forall j | 0 <= j < i ensures keys[..i][j] != keys[i] {
      assert keys[..i][j] == keys[j];
    }
  }

  /** Assigning a new key appends it to the order. */
  lemma PutFresh(d: Dict, k: string, v: int)
    requires d.Valid() && k !in d.keys
    ensures d.Put(k, v).keys == d.keys + [k]
  {
  }

  /** The `n`-th item of `m` is one more `d[k] = v` for the `n`-th key. */
  lemma ItemsStep(m: Dict, n: nat)
    requires m.Valid() && 0 < n <= |m.keys|
    ensures Assign(Empty(), Items(m)[..n]) ==
            Assign(Empty(), Items(m)[..n - 1]).Put(m.keys[n - 1], m.values[m.keys[n - 1]])
  {
    var ws := Items(m);
    assert ws[..n] == ws[..n - 1] + [ws[n - 1]];
    AssignSnoc(Empty(), ws[..n - 1], ws[n - 1]);
  }
}
