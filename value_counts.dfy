/**
 * Frequency tables: `value_counts().sort_index()` on a column of labels gives
 * one (label, count) entry per distinct label, in ascending label order.
 * `Tally` builds such a table by inserting the labels one at a time;
 * `IsCountTable` is the independent description, and the two are shown to
 * agree and the description to fix the table uniquely.
 */
module ValueCounts {
  import opened StringOrder

  datatype Entry = Entry(key: string, count: nat)

  /** How many times `x` occurs in the column `xs`. */
  function Count(xs: seq<string>, x: string): nat
    decreases |xs|
  {
    if xs == [] then 0
    else Count(xs[..|xs| - 1], x) + (if xs[|xs| - 1] == x then 1 else 0)
  }

  /** Appending one element to a column adds one to that element's count only. */
  lemma CountSnoc(xs: seq<string>, y: string, x: string)
    ensures Count(xs + [y], x) == Count(xs, x) + (if y == x then 1 else 0)
  {
    assert (xs + [y])[..|xs|] == xs;
  }

  /** The count the table `t` records for `x` (0 when `x` is not listed). */
  function CountOf(t: seq<Entry>, x: string): nat
    decreases |t|
  {
    if t == [] then 0
    else (if t[0].key == x then t[0].count else 0) + CountOf(t[1..], x)
  }

  /** The sum of the counts of `t`. */
  function Total(t: seq<Entry>): nat
    decreases |t|
  {
    if t == [] then 0 else t[0].count + Total(t[1..])
  }

  /** Labels in strictly ascending order, hence each listed once. */
  ghost predicate StrictlySorted(t: seq<Entry>)
  {
    forall i, j :: 0 <= i < j < |t| ==> Less(t[i].key, t[j].key)
  }

  ghost predicate Positive(t: seq<Entry>)
  {
    forall i :: 0 <= i < |t| ==> t[i].count >= 1
  }

  /** Every label of `t` sorts strictly after `h`. */
  ghost predicate AllAbove(t: seq<Entry>, h: string)
  {
    forall i :: 0 <= i < |t| ==> Less(h, t[i].key)
  }

  /** `t` is the sorted frequency table of the column `xs`. */
  ghost predicate IsCountTable(t: seq<Entry>, xs: seq<string>)
  {
    && StrictlySorted(t)
    && Positive(t)
    && forall x :: CountOf(t, x) == Count(xs, x)
  }

  /** Adds one occurrence of `x` to the sorted table `t`. */
  function Insert(t: seq<Entry>, x: string): seq<Entry>
    decreases |t|
  {
    if t == [] then [Entry(x, 1)]
    else if t[0].key == x then [Entry(x, t[0].count + 1)] + t[1..]
    else if Less(x, t[0].key) then [Entry(x, 1)] + t
    else [t[0]] + Insert(t[1..], x)
  }

  /**
   * `value_counts().sort_index()` of the column `xs`: its sorted frequency
   * table, whose counts account for every element of the column.
   */
  function Tally(xs: seq<string>): (t: seq<Entry>)
    ensures IsCountTable(t, xs)
    ensures Total(t) == |xs|
    decreases |xs|
  {
    if xs == [] then []
    else
      var init, last := Tally(xs[..|xs| - 1]), xs[|xs| - 1];
      InsertSorted(init, last);
      InsertTotal(init, last);
      InsertCounts(init, last);
      Insert(init, last)
  }

  lemma {:induction false} InsertCount(t: seq<Entry>, x: string, y: string)
    ensures CountOf(Insert(t, x), y) == CountOf(t, y) + (if x == y then 1 else 0)
    decreases |t|
  {
    if t != [] && t[0].key != x && !Less(x, t[0].key) {
      InsertCount(t[1..], x, y);
      assert Insert(t, x)[1..] == Insert(t[1..], x);
    } else if t != [] && t[0].key == x {
      assert Insert(t, x)[1..] == t[1..];
    } else if t != [] {
      assert Insert(t, x)[1..] == t;
    }
  }

  lemma {:induction false} InsertTotal(t: seq<Entry>, x: string)
    ensures Total(Insert(t, x)) == Total(t) + 1
    decreases |t|
  {
    if t != [] && t[0].key != x && !Less(x, t[0].key) {
      InsertTotal(t[1..], x);
      assert Insert(t, x)[1..] == Insert(t[1..], x);
    } else if t != [] && t[0].key == x {
      assert Insert(t, x)[1..] == t[1..];
    } else if t != [] {
      assert Insert(t, x)[1..] == t;
    }
  }

  lemma {:induction false} InsertAbove(t: seq<Entry>, x: string, h: string)
    requires AllAbove(t, h) && Less(h, x)
    ensures AllAbove(Insert(t, x), h)
    decreases |t|
  {
    if t != [] && t[0].key != x && !Less(x, t[0].key) {
      InsertAbove(t[1..], x, h);
      assert Insert(t, x)[1..] == Insert(t[1..], x);
    }
  }

  lemma SortedCons(e: Entry, t: seq<Entry>)
    requires StrictlySorted(t) && AllAbove(t, e.key)
    ensures StrictlySorted([e] + t)
  {
    var u := [e] + t;
    forall i, j | 0 <= i < j < |u| ensures Less(u[i].key, u[j].key) {
      if i > 0 {
        assert u[i] == t[i - 1] && u[j] == t[j - 1];
      } else {
        assert u[j] == t[j - 1];
      }
    }
  }

  lemma {:induction false} InsertSorted(t: seq<Entry>, x: string)
    requires StrictlySorted(t) && Positive(t)
    ensures StrictlySorted(Insert(t, x)) && Positive(Insert(t, x))
    decreases |t|
  {
    var r := Insert(t, x);
    if t == [] {
    } else if t[0].key == x {
      assert AllAbove(t[1..], x) by {
        forall i | 0 <= i < |t[1..]| ensures Less(x, t[1..][i].key) {
          assert t[1..][i] == t[i + 1];
        }
      }
      SortedCons(Entry(x, t[0].count + 1), t[1..]);
    } else if Less(x, t[0].key) {
      assert AllAbove(t, x) by {
        forall i | 0 <= i < |t| ensures Less(x, t[i].key) {
          if i > 0 {
            LessTransitive(x, t[0].key, t[i].key);
          }
        }
      }
      SortedCons(Entry(x, 1), t);
    } else {
      var tail := t[1..];
      InsertSorted(tail, x);
      LessTotal(x, t[0].key);
      assert AllAbove(tail, t[0].key) by {
        forall i | 0 <= i < |tail| ensures Less(t[0].key, tail[i].key) {
          assert tail[i] == t[i + 1];
        }
      }
      InsertAbove(tail, x, t[0].key);
      SortedCons(t[0], Insert(tail, x));
    }
  }

  lemma InsertCounts(t: seq<Entry>, x: string)
    ensures forall y :: CountOf(Insert(t, x), y) == CountOf(t, y) + (if x == y then 1 else 0)
  {
    forall y ensures CountOf(Insert(t, x), y) == CountOf(t, y) + (if x == y then 1 else 0) {
      InsertCount(t, x, y);
    }
  }

  lemma {:induction false} CountOfAbsent(t: seq<Entry>, x: string)
    requires forall i :: 0 <= i < |t| ==> t[i].key != x
    ensures CountOf(t, x) == 0
    decreases |t|
  {
    if t != [] {
      CountOfAbsent(t[1..], x);
    }
  }

  lemma {:induction false} CountOfListed(t: seq<Entry>, i: nat)
    requires StrictlySorted(t) && i < |t|
    ensures CountOf(t, t[i].key) == t[i].count
    decreases |t|
  {
    if i == 0 {
      forall j | 0 <= j < |t[1..]| ensures t[1..][j].key != t[0].key {
        assert t[1..][j] == t[j + 1];
        LessAsymmetric(t[0].key, t[j + 1].key);
      }
      CountOfAbsent(t[1..], t[0].key);
    } else {
      assert t[0].key != t[i].key by { LessIrreflexive(t[0].key); }
      assert t[1..][i - 1] == t[i];
      CountOfListed(t[1..], i - 1);
    }
  }

  /** A listed label occurs in the column, with the listed count, and a label occurring in the column is listed. */
  lemma CountTableLabels(t: seq<Entry>, xs: seq<string>)
    requires IsCountTable(t, xs)
    ensures forall i :: 0 <= i < |t| ==> Count(xs, t[i].key) == t[i].count >= 1
    ensures forall x :: Count(xs, x) > 0 ==> exists i :: 0 <= i < |t| && t[i].key == x
  {
    forall i | 0 <= i < |t| ensures Count(xs, t[i].key) == t[i].count {
      CountOfListed(t, i);
    }
    forall x | Count(xs, x) > 0 ensures exists i :: 0 <= i < |t| && t[i].key == x {
      if forall i :: 0 <= i < |t| ==> t[i].key != x {
        CountOfAbsent(t, x);
      }
    }
  }

  lemma HeadCounted(t: seq<Entry>)
    requires |t| > 0 && Positive(t)
    ensures CountOf(t, t[0].key) >= 1
  {
  }

  lemma TailSorted(t: seq<Entry>)
    requires |t| > 0 && StrictlySorted(t) && Positive(t)
    ensures StrictlySorted(t[1..]) && Positive(t[1..]) && AllAbove(t[1..], t[0].key)
  {
    forall i | 0 <= i < |t[1..]| ensures t[1..][i] == t[i + 1] { }
  }

  /** Two sorted tables with positive counts that record the same counts are the same table. */
  lemma {:induction false} CountTableUnique(t: seq<Entry>, u: seq<Entry>)
    requires StrictlySorted(t) && Positive(t) && StrictlySorted(u) && Positive(u)
    requires forall x :: CountOf(t, x) == CountOf(u, x)
    ensures t == u
    decreases |t|
  {
    if t == [] || u == [] {
      if t != [] {
        HeadCounted(t);
        assert false;
      } else if u != [] {
        HeadCounted(u);
        assert false;
      }
    } else {
      var h, k := t[0].key, u[0].key;
      TailSorted(t);
      TailSorted(u);
      CountOfListed(t, 0);
      CountOfListed(u, 0);
      LessTotal(h, k);
      if Less(h, k) {
        forall i | 0 <= i < |u| ensures u[i].key != h {
          if i > 0 { LessTransitive(h, k, u[i].key); }
          LessIrreflexive(h);
        }
        CountOfAbsent(u, h);
        assert false;
      } else if Less(k, h) {
        forall i | 0 <= i < |t| ensures t[i].key != k {
          if i > 0 { LessTransitive(k, h, t[i].key); }
          LessIrreflexive(k);
        }
        CountOfAbsent(t, k);
        assert false;
      }
      assert h == k && t[0].count == u[0].count;
      forall x ensures CountOf(t[1..], x) == CountOf(u[1..], x) {
        assert CountOf(t, x) == (if h == x then t[0].count else 0) + CountOf(t[1..], x);
        assert CountOf(u, x) == (if k == x then u[0].count else 0) + CountOf(u[1..], x);
        if x == h {
          forall i | 0 <= i < |t[1..]| ensures t[1..][i].key != x { LessIrreflexive(h); }
          forall i | 0 <= i < |u[1..]| ensures u[1..][i].key != x { LessIrreflexive(h); }
          CountOfAbsent(t[1..], x);
          CountOfAbsent(u[1..], x);
        }
      }
      CountTableUnique(t[1..], u[1..]);
      assert t == [t[0]] + t[1..] && u == [u[0]] + u[1..];
    }
  }

  /** The sorted frequency table of a column is exactly the one `Tally` builds. */
  lemma TallyUnique(t: seq<Entry>, xs: seq<string>)
    requires IsCountTable(t, xs)
    ensures t == Tally(xs)
  {
    CountTableUnique(t, Tally(xs));
  }
}
