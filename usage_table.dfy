/**
 * The id-indexed table of colour counts (an array of CountingLEGOColor indexed
 * by Rebrickable id, null where a colour was not seen) and its compaction into
 * the dense array of used colours.
 */
module UsageTable {
  import opened Colors

  datatype Option<T> = None | Some(value: T)

  /** A palette colour together with how many studs use it (LEGOColor.CountingLEGOColor). */
  datatype Counting = Counting(color: LegoColor, cnt: nat)

  /** The table: slot i holds the count of the colour with id i, if any. */
  type Table = seq<Option<Counting>>

  /** A table with n empty slots. */
  function Empty(n: nat): (t: Table)
    ensures |t| == n && forall i :: 0 <= i < n ==> t[i] == None
  {
    seq(n, _ => None)
  }

  /** Every colour in cs has a slot in a table of n slots. */
  predicate IdsBelow(cs: seq<LegoColor>, n: nat)
  {
    forall k :: 0 <= k < |cs| ==> cs[k].id < n
  }

  /** Every filled slot holds a colour whose id is the slot number. */
  predicate WellKeyed(t: Table)
  {
    forall i :: 0 <= i < |t| && t[i].Some? ==> t[i].value.color.id == i
  }

  /** The count in slot i (0 for an empty slot). */
  function CountOf(t: Table, i: nat): nat
    requires i < |t|
  {
    if t[i].Some? then t[i].value.cnt else 0
  }

  /** The table after one stud of colour c has been counted (the effect of addOne). */
  function Tally(t: Table, c: LegoColor): Table
    requires c.id < |t|
  {
    t[c.id := if t[c.id].None? then Some(Counting(c, 1)) else Some(t[c.id].value.(cnt := t[c.id].value.cnt + 1))]
  }

  /** The table after every stud of cs has been counted, in order. */
  function TallyAll(t: Table, cs: seq<LegoColor>): (r: Table)
    requires IdsBelow(cs, |t|)
    ensures |r| == |t|
  {
    if |cs| == 0 then t else Tally(TallyAll(t, cs[..|cs| - 1]), cs[|cs| - 1])
  }

  /** The filled slots of t, in increasing slot order. */
  function Compact(t: Table): seq<Counting>
  {
    if |t| == 0 then []
    else Compact(t[..|t| - 1]) + (if t[|t| - 1].Some? then [t[|t| - 1].value] else [])
  }

  /** The sum of all counts in t. */
  function Total(t: Table): nat
  {
    if |t| == 0 then 0 else Total(t[..|t| - 1]) + CountOf(t, |t| - 1)
  }

  /** The ids occurring in cs. */
  function IdSet(cs: seq<LegoColor>): set<nat>
  {
    set k | 0 <= k < |cs| :: cs[k].id
  }

  /** The slots of t that are filled. */
  function Filled(t: Table): set<nat>
  {
    set i | 0 <= i < |t| && t[i].Some?
  }

  /**
   * addOne: counts stud colour c in table m. On an empty slot it stores a new
   * count of 1 and answers true; otherwise it increments the count and answers false.
   */
  method AddOne(m: array<Option<Counting>>, c: LegoColor) returns (added: bool)
    requires c.id < m.Length
    modifies m
    ensures added <==> old(m[c.id]).None?
    ensures m[..] == Tally(old(m[..]), c)
  {
    var idx := c.id;
    if m[idx].Some? {
      m[idx] := Some(m[idx].value.(cnt := m[idx].value.cnt + 1));
      added := false;
    } else {
      m[idx] := Some(Counting(c, 1));
      added := true;
    }
  }

  // ---------------------------------------------------------------------------
  // One tally

  /** Counting a stud adds one to its own slot and leaves every other slot's count alone. */
  lemma TallyCount(t: Table, c: LegoColor, i: nat)
    requires c.id < |t| && i < |t|
    ensures |Tally(t, c)| == |t|
    ensures CountOf(Tally(t, c), i) == CountOf(t, i) + (if i == c.id then 1 else 0)
  {
  }

  /** Counting a stud keeps the table well keyed. */
  lemma TallyWellKeyed(t: Table, c: LegoColor)
    requires c.id < |t| && WellKeyed(t)
    ensures WellKeyed(Tally(t, c))
  {
  }

  /** Filling an empty slot lengthens the compaction by one; updating a filled slot does not change its length. */
  lemma {:induction false} CompactUpdate(t: Table, i: nat, v: Counting)
    requires i < |t|
    ensures |Compact(t[i := Some(v)])| == |Compact(t)| + (if t[i].None? then 1 else 0)
  {
    var n := |t|;
    var u := t[i := Some(v)];
    if i == n - 1 {
      assert u[..n - 1] == t[..n - 1];
    } else {
      assert u[..n - 1] == t[..n - 1][i := Some(v)];
      CompactUpdate(t[..n - 1], i, v);
    }
  }

  /** The number of distinct colours grows exactly when addOne answers true. */
  lemma TallyCompact(t: Table, c: LegoColor)
    requires c.id < |t|
    ensures |Compact(Tally(t, c))| == |Compact(t)| + (if t[c.id].None? then 1 else 0)
  {
    var v := if t[c.id].None? then Counting(c, 1) else t[c.id].value.(cnt := t[c.id].value.cnt + 1);
    CompactUpdate(t, c.id, v);
  }

  /** Changing one slot's count changes the total by the difference. */
  lemma {:induction false} TotalUpdate(t: Table, i: nat, v: Counting)
    requires i < |t|
    ensures Total(t[i := Some(v)]) + CountOf(t, i) == Total(t) + v.cnt
  {
    var n := |t|;
    var u := t[i := Some(v)];
    if i == n - 1 {
      assert u[..n - 1] == t[..n - 1];
    } else {
      assert u[..n - 1] == t[..n - 1][i := Some(v)];
      TotalUpdate(t[..n - 1], i, v);
    }
  }

  /** Each counted stud adds one to the total. */
  lemma TallyTotal(t: Table, c: LegoColor)
    requires c.id < |t|
    ensures Total(Tally(t, c)) == Total(t) + 1
  {
    var v := if t[c.id].None? then Counting(c, 1) else t[c.id].value.(cnt := t[c.id].value.cnt + 1);
    assert Tally(t, c) == t[c.id := Some(v)];
    assert v.cnt == CountOf(t, c.id) + 1;
    TotalUpdate(t, c.id, v);
  }

  // ---------------------------------------------------------------------------
  // Many tallies

  /** A prefix of studs with slots has slots. */
  lemma IdsBelowPrefix(a: seq<LegoColor>, c: seq<LegoColor>, n: nat)
    requires a <= c && IdsBelow(c, n)
    ensures IdsBelow(a, n)
  {
    forall k | 0 <= k < |a|
      ensures a[k].id < n
    {
      assert a[k] == c[k];
    }
  }

  /** Both halves of studs with slots have slots. */
  lemma IdsBelowHalves(a: seq<LegoColor>, b: seq<LegoColor>, n: nat)
    requires IdsBelow(a + b, n)
    ensures IdsBelow(a, n) && IdsBelow(b, n)
  {
    forall k | 0 <= k < |b|
      ensures b[k].id < n
    {
      assert b[k] == (a + b)[|a| + k];
    }
    IdsBelowPrefix(a, a + b, n);
  }

  /** Counting one more stud after cs is counting cs and then that stud. */
  lemma TallyAllSnoc(t: Table, cs: seq<LegoColor>, c: LegoColor)
    requires IdsBelow(cs, |t|) && c.id < |t|
    ensures IdsBelow(cs + [c], |t|)
    ensures TallyAll(t, cs + [c]) == Tally(TallyAll(t, cs), c)
  {
    assert (cs + [c])[..|cs|] == cs;
  }

  /** Counting a + b is counting a, then b. */
  lemma {:induction false} TallyAllAppend(t: Table, a: seq<LegoColor>, b: seq<LegoColor>)
    requires IdsBelow(a, |t|) && IdsBelow(b, |t|)
    ensures IdsBelow(a + b, |t|)
    ensures TallyAll(t, a + b) == TallyAll(TallyAll(t, a), b)
  {
    if |b| > 0 {
      var b' := b[..|b| - 1];
      assert (a + b)[..|a + b| - 1] == a + b';
      TallyAllAppend(t, a, b');
    } else {
      assert a + b == a;
    }
  }

  /** Counting cs adds, to each slot, the number of studs of cs with that id. */
  lemma {:induction false} TallyAllCount(t: Table, cs: seq<LegoColor>, i: nat)
    requires IdsBelow(cs, |t|) && i < |t|
    ensures |TallyAll(t, cs)| == |t|
    ensures CountOf(TallyAll(t, cs), i) == CountOf(t, i) + multiset(Ids(cs))[i]
  {
    if |cs| > 0 {
      var cs' := cs[..|cs| - 1];
      var c := cs[|cs| - 1];
      assert cs == cs' + [c];
      assert Ids(cs) == Ids(cs') + [c.id];
      TallyAllCount(t, cs', i);
      TallyCount(TallyAll(t, cs'), c, i);
    }
  }

  /** The ids of cs, in order. */
  function Ids(cs: seq<LegoColor>): (ids: seq<nat>)
    ensures |ids| == |cs| && forall k :: 0 <= k < |cs| ==> ids[k] == cs[k].id
  {
    if |cs| == 0 then [] else Ids(cs[..|cs| - 1]) + [cs[|cs| - 1].id]
  }

  /** Counting cs adds |cs| to the total. */
  lemma {:induction false} TallyAllTotal(t: Table, cs: seq<LegoColor>)
    requires IdsBelow(cs, |t|)
    ensures Total(TallyAll(t, cs)) == Total(t) + |cs|
  {
    if |cs| > 0 {
      TallyAllTotal(t, cs[..|cs| - 1]);
      TallyTotal(TallyAll(t, cs[..|cs| - 1]), cs[|cs| - 1]);
    }
  }

  /** Counting cs keeps the table well keyed. */
  lemma {:induction false} TallyAllWellKeyed(t: Table, cs: seq<LegoColor>)
    requires IdsBelow(cs, |t|) && WellKeyed(t)
    ensures WellKeyed(TallyAll(t, cs))
  {
    if |cs| > 0 {
      TallyAllWellKeyed(t, cs[..|cs| - 1]);
      TallyWellKeyed(TallyAll(t, cs[..|cs| - 1]), cs[|cs| - 1]);
    }
  }

  /** After counting cs from an empty table, exactly the ids of cs are filled. */
  lemma {:induction false} TallyAllFilled(n: nat, cs: seq<LegoColor>)
    requires IdsBelow(cs, n)
    ensures |TallyAll(Empty(n), cs)| == n
    ensures Filled(TallyAll(Empty(n), cs)) == IdSet(cs)
  {
    if |cs| > 0 {
      var cs' := cs[..|cs| - 1];
      var c := cs[|cs| - 1];
      TallyAllFilled(n, cs');
      var t := TallyAll(Empty(n), cs');
      assert Filled(Tally(t, c)) == Filled(t) + {c.id};
      assert IdSet(cs) == IdSet(cs') + {c.id} by {
        forall k | 0 <= k < |cs|
          ensures cs[k].id in IdSet(cs') + {c.id}
        {
          if k < |cs| - 1 {
            assert cs[k] == cs'[k];
          }
        }
        forall k | 0 <= k < |cs'|
          ensures cs'[k].id in IdSet(cs)
        {
          assert cs'[k] == cs[k];
        }
      }
    } else {
      assert Filled(Empty(n)) == {};
    }
  }

  // ---------------------------------------------------------------------------
  // Compaction

  /** The compaction has one entry per filled slot. */
  lemma {:induction false} CompactSize(t: Table)
    ensures |Compact(t)| == |Filled(t)|
  {
    if |t| > 0 {
      var n := |t|;
      CompactSize(t[..n - 1]);
      var f := Filled(t[..n - 1]);
      assert n - 1 !in f;
      if t[n - 1].Some? {
        assert Filled(t) == f + {n - 1};
      } else {
        assert Filled(t) == f;
      }
    } else {
      assert Filled(t) == {};
    }
  }

  /** The compaction holds exactly the filled slots' contents. */
  lemma {:induction false} CompactMembers(t: Table, x: Counting)
    ensures x in Compact(t) <==> exists i :: 0 <= i < |t| && t[i] == Some(x)
  {
    if |t| > 0 {
      var n := |t|;
      CompactMembers(t[..n - 1], x);
      if x in Compact(t[..n - 1]) {
        var i :| 0 <= i < n - 1 && t[..n - 1][i] == Some(x);
        assert t[i] == Some(x);
      }
      if exists i :: 0 <= i < |t| && t[i] == Some(x) {
        var i :| 0 <= i < |t| && t[i] == Some(x);
        if i < n - 1 {
          assert t[..n - 1][i] == Some(x);
        }
      }
    }
  }

  /** Every entry of the compaction of a well-keyed table has an id below the table's size. */
  lemma {:induction false} CompactIdsBelow(t: Table)
    requires WellKeyed(t)
    ensures forall k :: 0 <= k < |Compact(t)| ==> Compact(t)[k].color.id < |t|
  {
    if |t| > 0 {
      var n := |t|;
      assert WellKeyed(t[..n - 1]);
      CompactIdsBelow(t[..n - 1]);
    }
  }

  /** The compaction of a well-keyed table lists the colours in strictly increasing id order. */
  lemma {:induction false} CompactSorted(t: Table)
    requires WellKeyed(t)
    ensures forall k, l :: 0 <= k < l < |Compact(t)| ==> Compact(t)[k].color.id < Compact(t)[l].color.id
  {
    if |t| > 0 {
      var n := |t|;
      var p := t[..n - 1];
      assert WellKeyed(p);
      CompactSorted(p);
      CompactIdsBelow(p);
    }
  }

  /** Compacting one more slot appends that slot's content, if any. */
  lemma CompactSnoc(t: Table, i: nat)
    requires i < |t|
    ensures Compact(t[..i + 1]) == Compact(t[..i]) + (if t[i].Some? then [t[i].value] else [])
  {
    assert t[..i + 1][..i] == t[..i];
  }

  /** A prefix compacts to no more entries than the whole table. */
  lemma {:induction false} CompactPrefix(t: Table, i: nat)
    requires i <= |t|
    ensures |Compact(t[..i])| <= |Compact(t)|
    decreases |t| - i
  {
    if i < |t| {
      CompactSnoc(t, i);
      CompactPrefix(t, i + 1);
    } else {
      assert t[..i] == t;
    }
  }

  /** An empty table compacts to nothing. */
  lemma {:induction false} CompactEmpty(n: nat)
    ensures Compact(Empty(n)) == []
  {
    if n > 0 {
      assert Empty(n)[..n - 1] == Empty(n - 1);
      CompactEmpty(n - 1);
    }
  }

  /** An empty table has total 0. */
  lemma {:induction false} TotalEmpty(n: nat)
    ensures Total(Empty(n)) == 0
  {
    if n > 0 {
      assert Empty(n)[..n - 1] == Empty(n - 1);
      TotalEmpty(n - 1);
    }
  }

  /** The sum of the counts of a dense array of counts. */
  function SumCounts(cs: seq<Counting>): nat
  {
    if |cs| == 0 then 0 else SumCounts(cs[..|cs| - 1]) + cs[|cs| - 1].cnt
  }

  /** Compaction keeps every count. */
  lemma {:induction false} CompactTotal(t: Table)
    ensures SumCounts(Compact(t)) == Total(t)
  {
    if |t| > 0 {
      var n := |t|;
      CompactTotal(t[..n - 1]);
      var c := Compact(t[..n - 1]);
      if t[n - 1].Some? {
        assert (c + [t[n - 1].value])[..|c|] == c;
      } else {
        assert c + [] == c;
      }
    }
  }

  // ---------------------------------------------------------------------------
  // What lastUsedColorCounts delivers for the studs cs

  /** One entry per distinct id. */
  lemma UsageSize(n: nat, cs: seq<LegoColor>)
    requires IdsBelow(cs, n)
    ensures |Compact(TallyAll(Empty(n), cs))| == |IdSet(cs)|
  {
    TallyAllFilled(n, cs);
    CompactSize(TallyAll(Empty(n), cs));
  }

  /** The counts sum to the number of studs. */
  lemma UsageTotal(n: nat, cs: seq<LegoColor>)
    requires IdsBelow(cs, n)
    ensures SumCounts(Compact(TallyAll(Empty(n), cs))) == |cs|
  {
    TallyAllTotal(Empty(n), cs);
    TotalEmpty(n);
    CompactTotal(TallyAll(Empty(n), cs));
  }

  /** The entries come in strictly increasing id order. */
  lemma UsageOrder(n: nat, cs: seq<LegoColor>)
    requires IdsBelow(cs, n)
    ensures var r := Compact(TallyAll(Empty(n), cs));
            forall k, l :: 0 <= k < l < |r| ==> r[k].color.id < r[l].color.id
  {
    TallyAllWellKeyed(Empty(n), cs);
    CompactSorted(TallyAll(Empty(n), cs));
  }

  /** Every filled slot of t holds a colour of cs. */
  predicate ColorsFrom(t: Table, cs: seq<LegoColor>)
  {
    forall i :: 0 <= i < |t| && t[i].Some? ==> t[i].value.color in cs
  }

  /** Every filled slot holds a colour that was counted: the first one seen with that id. */
  lemma {:induction false} TallyAllColors(n: nat, cs: seq<LegoColor>)
    requires IdsBelow(cs, n)
    ensures ColorsFrom(TallyAll(Empty(n), cs), cs)
  {
    if |cs| > 0 {
      var init := cs[..|cs| - 1];
      assert IdsBelow(init, n);
      TallyAllColors(n, init);
      var prev, last := TallyAll(Empty(n), init), cs[|cs| - 1];
      assert ColorsFrom(prev, init);
      var t := TallyAll(Empty(n), cs);
      assert t == Tally(prev, last);
      assert cs == init + [last];
      forall i | 0 <= i < |t| && t[i].Some?
        ensures t[i].value.color in cs
      {
        if i != last.id || prev[i].Some? {
          assert prev[i].Some? && t[i].value.color == prev[i].value.color;
          assert prev[i].value.color in init;
        } else {
          assert t[i].value.color == last;
        }
      }
    }
  }

  /** Each entry is a colour of cs with the number of studs of its id. */
  lemma UsageEntries(n: nat, cs: seq<LegoColor>)
    requires IdsBelow(cs, n)
    ensures var r := Compact(TallyAll(Empty(n), cs));
            forall k :: 0 <= k < |r| ==> r[k].color in cs && r[k].color.id in IdSet(cs) && r[k].cnt == multiset(Ids(cs))[r[k].color.id]
  {
    var t := TallyAll(Empty(n), cs);
    var r := Compact(t);
    TallyAllFilled(n, cs);
    TallyAllWellKeyed(Empty(n), cs);
    TallyAllColors(n, cs);
    assert ColorsFrom(t, cs);
    forall k | 0 <= k < |r|
      ensures r[k].color in cs && r[k].color.id in IdSet(cs) && r[k].cnt == multiset(Ids(cs))[r[k].color.id]
    {
      CompactMembers(t, r[k]);
      var i :| 0 <= i < |t| && t[i] == Some(r[k]);
      assert i in Filled(t);
      TallyAllCount(Empty(n), cs, i);
    }
  }

  /** Every id of cs has an entry. */
  lemma UsageComplete(n: nat, cs: seq<LegoColor>)
    requires IdsBelow(cs, n)
    ensures var r := Compact(TallyAll(Empty(n), cs));
            forall id :: id in IdSet(cs) ==> exists k :: 0 <= k < |r| && r[k].color.id == id
  {
    var t := TallyAll(Empty(n), cs);
    var r := Compact(t);
    TallyAllFilled(n, cs);
    TallyAllWellKeyed(Empty(n), cs);
    forall id | id in IdSet(cs)
      ensures exists k :: 0 <= k < |r| && r[k].color.id == id
    {
      assert id in Filled(t);
      CompactMembers(t, t[id].value);
      var k :| 0 <= k < |r| && r[k] == t[id].value;
    }
  }
}
