/** Three checkers of received message identifiers: two over an ordered set, and the fast one over a
    sliding array window. */
module DuplicateChecker {

  datatype Status = Ok | AlreadyProcessed | TooOld

  // ---------- The ordered-set checkers

  /** The least element, what begin() of an ordered set points to */
  ghost function Least(s: set<nat>): (m: nat)
    requires s != {}
    ensures m in s && forall x :: x in s ==> m <= x
  {
    var x :| x in s;
    if s == {x} then x
    else
      assert forall y :: y in s ==> y == x || y in s - {x};
      var m := Least(s - {x});
      if m < x then m else x
  }

  datatype Checked<T> = Checked(status: Status, state: T)

  ghost function OldCheck(s: set<nat>, n: nat, id: nat): Checked<set<nat>>
    requires n > 0
  {
    if |s| == n && id < Least(s) then Checked(TooOld, s)
    else if id in s then Checked(AlreadyProcessed, s)
    else if |s + {id}| > n then Checked(Ok, s + {id} - {Least(s + {id})})
    else Checked(Ok, s + {id})
  }

  method FindLeast(s: set<nat>) returns (m: nat)
    requires s != {}
    ensures m == Least(s)
  {
    ghost var least := Least(s);
    m :| m in s && forall x :: x in s ==> m <= x;
  }

  class IdDuplicateCheckerOld {
    var saved: set<nat>

    constructor ()
      ensures saved == {}
    {
      saved := {};
    }

    method Check(n: nat, id: nat) returns (status: Status)
      requires n > 0
      modifies this
      ensures Checked(status, saved) == OldCheck(old(saved), n, id)
    {
      if |saved| == n {
        var oldest := FindLeast(saved);
        if id < oldest {
          return TooOld;
        }
      }
      if id in saved {
        return AlreadyProcessed;
      }
      saved := saved + {id};
      if |saved| > n {
        var first := FindLeast(saved);
        saved := saved - {first};
      }
      return Ok;
    }
  }

  /** Inserts first and looks afterwards. It decides, and remembers, exactly what the old one does. */
  class IdDuplicateCheckerNew {
    var saved: set<nat>

    constructor ()
      ensures saved == {}
    {
      saved := {};
    }

    method Check(n: nat, id: nat) returns (status: Status)
      requires n > 0 && |saved| <= n
      modifies this
      ensures |saved| <= n && Checked(status, saved) == OldCheck(old(saved), n, id)
    {
      if id in saved {
        return AlreadyProcessed;
      }
      ghost var before := saved;
      saved := saved + {id};
      if |saved| == n + 1 {
        var first := FindLeast(saved);
        var isVeryOld := first == id;
        saved := saved - {first};
        if isVeryOld {
          assert saved == before;
          return TooOld;
        }
        assert Least(before) in saved + {first};
      }
      return Ok;
    }
  }

  // ---------- The array checker

  predicate Sorted(v: seq<nat>) {
    forall i, j :: 0 <= i < j < |v| ==> v[i] < v[j]
  }

  /** The number of elements below id, as std::lower_bound finds it in a sorted range */
  function LowerBound(v: seq<nat>, id: nat): (i: nat)
    requires Sorted(v)
    ensures i <= |v|
    ensures forall j :: 0 <= j < i ==> v[j] < id
    ensures forall j :: i <= j < |v| ==> v[j] >= id
  {
    if v == [] || v[0] >= id then 0
    else
      assert forall j :: 0 < j < |v| ==> v[j] == v[1..][j - 1];
      1 + LowerBound(v[1..], id)
  }

  function Insert(v: seq<nat>, id: nat): seq<nat>
    requires Sorted(v)
  {
    v[..LowerBound(v, id)] + [id] + v[LowerBound(v, id)..]
  }

  /** The saved identifiers, after the upper half of a full array has been moved down */
  function Compact(w: seq<nat>, n: nat): seq<nat>
    requires n > 0
  {
    if |w| == 2 * n then w[n..] else w
  }

  function ArrayCheck(w: seq<nat>, n: nat, id: nat): Checked<seq<nat>>
    requires n > 0 && Sorted(w)
  {
    var v := Compact(w, n);
    if |v| >= n && id < v[0] then Checked(TooOld, v)
    else if id in v then Checked(AlreadyProcessed, v)
    else Checked(Ok, Insert(v, id))
  }

  class MessageIdDuplicateChecker {
    const saved: array<nat>
    const maxSize: nat
    var endPos: nat

    ghost predicate Valid()
      reads this, saved
    {
      && maxSize > 0 && saved.Length == 2 * maxSize && endPos <= 2 * maxSize
      && Sorted(saved[..endPos])
    }

    constructor (maxSize: nat)
      requires maxSize > 0
      ensures Valid() && fresh(saved) && this.maxSize == maxSize && endPos == 0
    {
      this.maxSize := maxSize;
      saved := new nat[2 * maxSize](_ => 0);
      endPos := 0;
    }

    method Check(id: nat) returns (status: Status)
      requires Valid()
      modifies this`endPos, saved
      ensures Valid() && Checked(status, saved[..endPos]) == ArrayCheck(old(saved[..endPos]), maxSize, id)
    {
      hide Insert, LowerBound;
      ghost var v := Compact(saved[..endPos], maxSize);
      if endPos == 2 * maxSize {
        MoveDown();
      }
      assert saved[..endPos] == v;
      if endPos == 0 || id > saved[endPos - 1] {
        Append(id);
        return Ok;
      }
      if endPos >= maxSize && id < saved[0] {
        return TooOld;
      }
      var it := FindLowerBound(id);
      assert v[it] == saved[it];
      OutsideBound(v, id);
      if saved[it] == id {
        return AlreadyProcessed;
      }
      InsertAt(it, id);
      return Ok;
    }

    method Append(id: nat)
      requires Valid() && endPos < saved.Length && (endPos == 0 || id > saved[endPos - 1])
      modifies this`endPos, saved
      ensures Valid() && id !in old(saved[..endPos]) && saved[..endPos] == Insert(old(saved[..endPos]), id)
      ensures old(endPos) > 0 ==> id > old(saved[0])
    {
      AppendIsInsert(saved[..endPos], id);
      saved[endPos] := id;
      endPos := endPos + 1;
      assert saved[..endPos] == old(saved[..endPos]) + [id];
    }

    method InsertAt(it: nat, id: nat)
      requires Valid() && endPos < saved.Length && id !in saved[..endPos] && it == LowerBound(saved[..endPos], id)
      modifies this`endPos, saved
      ensures Valid() && saved[..endPos] == Insert(old(saved[..endPos]), id)
    {
      hide LowerBound;
      ghost var v := saved[..endPos];
      InsertSorts(v, id);
      CopyBackward(it);
      saved[it] := id;
      endPos := endPos + 1;
      assert saved[..endPos] == v[..it] + [id] + v[it..];
    }

    /** std::copy_n of the upper half onto the lower half */
    method MoveDown()
      requires Valid() && endPos == 2 * maxSize
      modifies this`endPos, saved
      ensures Valid() && endPos == maxSize && saved[..endPos] == old(saved[..])[maxSize..]
    {
      for i := 0 to maxSize
        invariant forall k :: 0 <= k < i ==> saved[k] == old(saved[maxSize + k])
        invariant forall k :: maxSize <= k < 2 * maxSize ==> saved[k] == old(saved[k])
      {
        saved[i] := saved[maxSize + i];
      }
      endPos := maxSize;
    }

    /** std::lower_bound, by halving */
    method FindLowerBound(id: nat) returns (it: nat)
      requires Valid() && endPos > 0 && id <= saved[endPos - 1]
      ensures it < endPos && it == LowerBound(saved[..endPos], id)
    {
      ghost var v := saved[..endPos];
      var low, high := 0, endPos;
      while low < high
        invariant low <= LowerBound(v, id) <= high <= endPos
      {
        var mid := low + (high - low) / 2;
        assert v[mid] == saved[mid];
        if saved[mid] < id {
          low := mid + 1;
        } else {
          high := mid;
        }
      }
      assert v[endPos - 1] >= id;
      return low;
    }

    /** std::copy_backward of the tail, one place up */
    method CopyBackward(it: nat)
      requires it <= endPos < saved.Length
      modifies saved
      ensures forall k :: 0 <= k < it ==> saved[k] == old(saved[k])
      ensures forall k :: it <= k < endPos ==> saved[k + 1] == old(saved[k])
    {
      var i := endPos;
      while i > it
        invariant it <= i <= endPos
        invariant forall k :: 0 <= k < i ==> saved[k] == old(saved[k])
        invariant forall k :: i <= k < endPos ==> saved[k + 1] == old(saved[k])
      {
        saved[i] := saved[i - 1];
        i := i - 1;
      }
    }
  }

  lemma OutsideBound(v: seq<nat>, id: nat)
    requires Sorted(v)
    ensures id in v <==> LowerBound(v, id) < |v| && v[LowerBound(v, id)] == id
  {
  }

  lemma InsertSorts(v: seq<nat>, id: nat)
    requires Sorted(v) && id !in v
    ensures Sorted(Insert(v, id)) && |Insert(v, id)| == |v| + 1
  {
  }

  lemma AppendIsInsert(v: seq<nat>, id: nat)
    requires Sorted(v) && (v == [] || id > v[|v| - 1])
    ensures id !in v && Insert(v, id) == v + [id] && Sorted(v + [id])
    ensures v != [] ==> id > v[0]
  {
  }

  // ---------- The array checker refines the set checkers

  /** The last n saved identifiers */
  function Window(v: seq<nat>, n: nat): seq<nat> {
    if |v| <= n then v else v[|v| - n..]
  }

  function SetOf(v: seq<nat>): set<nat> {
    set x | x in v
  }

  /** The state of a set checker that has the same window */
  ghost predicate SameWindow(w: seq<nat>, s: set<nat>, n: nat)
    requires n > 0
  {
    Sorted(w) && |w| <= 2 * n && s == SetOf(Window(w, n))
  }

  lemma {:induction false} SizeOfSorted(v: seq<nat>)
    requires Sorted(v)
    ensures |SetOf(v)| == |v|
    decreases |v|
  {
    if v != [] {
      var last := |v| - 1;
      SizeOfSorted(v[..last]);
      assert v == v[..last] + [v[last]];
      assert SetOf(v) == SetOf(v[..last]) + {v[last]};
      assert v[last] !in v[..last];
    }
  }

  lemma LeastOfSorted(v: seq<nat>)
    requires Sorted(v) && v != []
    ensures SetOf(v) != {} && Least(SetOf(v)) == v[0]
  {
    assert v[0] in SetOf(v);
  }

  lemma CompactKeepsWindow(w: seq<nat>, n: nat)
    requires n > 0 && Sorted(w) && |w| <= 2 * n
    ensures Sorted(Compact(w, n)) && Window(Compact(w, n), n) == Window(w, n)
  {
  }

  lemma Slide(x: nat, a: seq<nat>, b: seq<nat>, id: nat)
    requires x !in a && x !in b && x != id
    ensures SetOf(a + [id] + b) == SetOf([x] + (a + b)) + {id} - {x}
  {
    var moved := [x] + (a + b);
    assert forall y :: y in moved <==> y == x || y in a || y in b;
  }

  lemma InsertContents(v: seq<nat>, id: nat)
    requires Sorted(v)
    ensures SetOf(Insert(v, id)) == SetOf(v) + {id}
  {
    hide Sorted, LowerBound;
    var i := LowerBound(v, id);
    assert v == v[..i] + v[i..];
  }

  lemma InsertAfter(v: seq<nat>, k: nat, i: nat, id: nat)
    requires k < i <= |v|
    ensures (v[..i] + [id] + v[i..])[k + 1..] == v[k + 1..i] + [id] + v[i..]
    ensures v[k..] == [v[k]] + (v[k + 1..i] + v[i..])
  {
  }

  lemma InsertBefore(v: seq<nat>, k: nat, i: nat, id: nat)
    requires i <= k <= |v|
    ensures (v[..i] + [id] + v[i..])[k + 1..] == v[k..]
  {
  }

  /** How inserting changes the window */
  lemma InsertWindow(v: seq<nat>, n: nat, id: nat)
    requires n > 0 && Sorted(v) && id !in v
    ensures var before, after := SetOf(Window(v, n)), SetOf(Window(Insert(v, id), n));
            if |v| < n then after == before + {id}
            else if id < v[|v| - n] then after == before
            else after == before + {id} - {v[|v| - n]}
  {
    if |v| < n {
      InsertContents(v, id);
      InsertSorts(v, id);
      hide Insert, SetOf, Sorted;
      assert Window(v, n) == v && Window(Insert(v, id), n) == Insert(v, id);
    } else {
      SplitWindow(v, n, id);
    }
  }

  lemma SplitWindow(v: seq<nat>, n: nat, id: nat)
    requires n > 0 && Sorted(v) && id !in v && |v| >= n
    ensures var before, after := SetOf(Window(v, n)), SetOf(Window(Insert(v, id), n));
            after == if id < v[|v| - n] then before else before + {id} - {v[|v| - n]}
  {
    var i, k := LowerBound(v, id), |v| - n;
    assert id < v[k] <==> i <= k;
    FirstIsSmaller(v, k);
    hide LowerBound, SetOf, Sorted;
    assert Window(v, n) == v[k..] && Window(Insert(v, id), n) == Insert(v, id)[k + 1..];
    if i <= k {
      InsertBefore(v, k, i, id);
    } else {
      InsertAfter(v, k, i, id);
      Slide(v[k], v[k + 1..i], v[i..], id);
    }
  }

  lemma FirstIsSmaller(v: seq<nat>, k: nat)
    requires Sorted(v) && k < |v|
    ensures forall i :: k < i <= |v| ==> v[k] !in v[k + 1..i] && v[k] !in v[i..]
  {
  }

  /** What the array refuses, the set refuses. */
  lemma RefusedByBoth(v: seq<nat>, n: nat, id: nat)
    requires n > 0 && Sorted(v) && (id in v || (|v| >= n && id < v[0]))
    ensures var s := SetOf(Window(v, n)); OldCheck(s, n, id).state == s && OldCheck(s, n, id).status != Ok
  {
    hide SetOf;
    var window := Window(v, n);
    SizeOfSorted(window);
    if window != [] {
      LeastOfSorted(window);
    }
    WindowMembers(v, n, id);
  }

  /** What the array accepts, the set accepts unless it is older than the window. */
  lemma AcceptedByArray(v: seq<nat>, n: nat, id: nat)
    requires n > 0 && Sorted(v) && id !in v
    ensures var o := OldCheck(SetOf(Window(v, n)), n, id);
            && o.state == SetOf(Window(Insert(v, id), n))
            && (o.status == Ok <==> !(|v| >= n && id < v[|v| - n]))
  {
    hide SetOf, Insert;
    var window := Window(v, n);
    var s := SetOf(window);
    SizeOfSorted(window);
    WindowMembers(v, n, id);
    InsertWindow(v, n, id);
    if window != [] {
      LeastOfSorted(window);
      if id > window[0] {
        LeastOfMore(s, id);
      }
    }
    CountOfMore(s, id);
  }

  /** One identifier shown to both: the windows stay the same, whatever the set accepts the array accepts, and
      the array accepts more exactly when it remembers more than n and the identifier falls in between. */
  lemma ArrayRefinesSet(w: seq<nat>, s: set<nat>, n: nat, id: nat)
    requires n > 0 && SameWindow(w, s, n)
    ensures var a, o := ArrayCheck(w, n, id), OldCheck(s, n, id);
            && SameWindow(a.state, o.state, n)
            && (o.status == Ok ==> a.status == Ok)
    ensures var a, o, v := ArrayCheck(w, n, id), OldCheck(s, n, id), Compact(w, n);
            a.status == Ok && o.status != Ok <==> |v| > n && id !in v && v[0] < id < v[|v| - n]
  {
    hide Insert, SetOf, OldCheck;
    CompactKeepsWindow(w, n);
    var v := Compact(w, n);
    if id in v || (|v| >= n && id < v[0]) {
      RefusedByBoth(v, n, id);
    } else {
      InsertSorts(v, id);
      AcceptedByArray(v, n, id);
    }
  }

  lemma WindowMembers(v: seq<nat>, n: nat, id: nat)
    requires n > 0 && Sorted(v)
    ensures id in SetOf(Window(v, n)) <==> id in v && (|v| >= n ==> id >= v[|v| - n])
  {
    if id in v && |v| > n && id >= v[|v| - n] {
      var k :| 0 <= k < |v| && v[k] == id;
      assert Window(v, n)[k - (|v| - n)] == id;
    }
  }

  lemma CountOfMore(s: set<nat>, id: nat)
    requires id !in s
    ensures |s + {id}| == |s| + 1
  {
  }

  lemma LeastOfMore(s: set<nat>, id: nat)
    requires s != {} && id > Least(s)
    ensures Least(s + {id}) == Least(s)
  {
  }

  // ---------- Whole runs

  /** What a run of the array checker on a list of identifiers has answered, and where it has got to */
  function ArrayRun(ids: seq<nat>, n: nat): (r: Checked<seq<nat>>)
    requires n > 0
    ensures Sorted(r.state) && |r.state| <= 2 * n
    decreases |ids|
  {
    if ids == [] then Checked(Ok, [])
    else
      var last := |ids| - 1;
      var w := ArrayRun(ids[..last], n).state;
      if ids[last] !in Compact(w, n) then InsertSorts(Compact(w, n), ids[last]); ArrayCheck(w, n, ids[last])
      else ArrayCheck(w, n, ids[last])
  }

  ghost function SetRun(ids: seq<nat>, n: nat): Checked<set<nat>>
    requires n > 0
    decreases |ids|
  {
    if ids == [] then Checked(Ok, {}) else OldCheck(SetRun(ids[..|ids| - 1], n).state, n, ids[|ids| - 1])
  }

  /** After any run the windows agree, and the last identifier is accepted by the array if the set accepts it. */
  lemma {:induction false} RunsAgree(ids: seq<nat>, n: nat)
    requires n > 0
    ensures SameWindow(ArrayRun(ids, n).state, SetRun(ids, n).state, n)
    ensures SetRun(ids, n).status == Ok ==> ArrayRun(ids, n).status == Ok
    decreases |ids|
  {
    if ids != [] {
      var last := |ids| - 1;
      RunsAgree(ids[..last], n);
      ArrayRefinesSet(ArrayRun(ids[..last], n).state, SetRun(ids[..last], n).state, n, ids[last]);
    }
  }

  /** The identifier is remembered, or older than all that is remembered in a full window. */
  predicate Known(v: seq<nat>, n: nat, id: nat) {
    id in v || (n > 0 && |v| >= n && id < v[0])
  }

  lemma CompactKeepsKnown(w: seq<nat>, n: nat, id: nat)
    requires n > 0 && Sorted(w) && |w| <= 2 * n && Known(w, n, id)
    ensures Known(Compact(w, n), n, id)
  {
    if |w| == 2 * n && id in w {
      var k :| 0 <= k < |w| && w[k] == id;
      assert k >= n ==> w[n..][k - n] == id;
    }
  }

  lemma InsertKeepsKnown(v: seq<nat>, n: nat, id: nat, known: nat)
    requires n > 0 && Sorted(v) && Known(v, n, known) && id !in v && (|v| >= n ==> id >= v[0])
    ensures Known(Insert(v, id), n, known)
  {
    InsertContents(v, id);
    assert known in v ==> known in SetOf(Insert(v, id));
    if v != [] && id >= v[0] {
      assert Insert(v, id)[0] == v[0];
    }
  }

  lemma KnownStaysKnown(w: seq<nat>, n: nat, id: nat, known: nat)
    requires n > 0 && Sorted(w) && |w| <= 2 * n && Known(w, n, known)
    ensures Known(ArrayCheck(w, n, id).state, n, known)
  {
    hide Known, Insert;
    CompactKeepsKnown(w, n, known);
    if ArrayCheck(w, n, id).status == Ok {
      InsertKeepsKnown(Compact(w, n), n, id, known);
    }
  }

  lemma AcceptedBecomesKnown(w: seq<nat>, n: nat, id: nat)
    requires n > 0 && Sorted(w) && ArrayCheck(w, n, id).status == Ok
    ensures Known(ArrayCheck(w, n, id).state, n, id)
  {
    InsertContents(Compact(w, n), id);
    assert id in SetOf(Insert(Compact(w, n), id));
  }

  /** What a run has accepted stays known. */
  lemma {:induction false} AcceptedIsKnown(ids: seq<nat>, n: nat, i: nat)
    requires n > 0 && i < |ids| && ArrayRun(ids[..i + 1], n).status == Ok
    ensures Known(ArrayRun(ids, n).state, n, ids[i])
    decreases |ids|
  {
    hide Known, ArrayCheck;
    var last := |ids| - 1;
    var w := ArrayRun(ids[..last], n).state;
    if i == last {
      assert ids[..i + 1] == ids;
      AcceptedBecomesKnown(w, n, ids[i]);
    } else {
      assert ids[..last][..i + 1] == ids[..i + 1];
      AcceptedIsKnown(ids[..last], n, i);
      KnownStaysKnown(w, n, ids[last], ids[i]);
    }
  }

  lemma KnownIsRefused(w: seq<nat>, n: nat, known: nat)
    requires n > 0 && Sorted(w) && |w| <= 2 * n && Known(w, n, known)
    ensures ArrayCheck(w, n, known).status != Ok
  {
    CompactKeepsKnown(w, n, known);
  }

  /** No identifier is accepted twice, however many come in between. */
  lemma NoReplay(ids: seq<nat>, n: nat, i: nat, j: nat)
    requires n > 0 && i < j < |ids|
    requires ArrayRun(ids[..i + 1], n).status == Ok && ArrayRun(ids[..j + 1], n).status == Ok
    ensures ids[i] != ids[j]
  {
    hide Known, ArrayCheck;
    assert ids[..j][..i + 1] == ids[..i + 1];
    AcceptedIsKnown(ids[..j], n, i);
    assert ids[..j + 1][..j] == ids[..j];
    KnownIsRefused(ArrayRun(ids[..j], n).state, n, ids[i]);
  }

  /** Nor do the set checkers accept an identifier twice. */
  lemma SetNoReplay(ids: seq<nat>, n: nat, i: nat, j: nat)
    requires n > 0 && i < j < |ids|
    requires SetRun(ids[..i + 1], n).status == Ok && SetRun(ids[..j + 1], n).status == Ok
    ensures ids[i] != ids[j]
  {
    hide SetRun, ArrayRun, SameWindow;
    RunsAgree(ids[..i + 1], n);
    RunsAgree(ids[..j + 1], n);
    NoReplay(ids, n, i, j);
  }

  /** The array checker has accepted the identifier in the run. */
  ghost predicate WasAccepted(ids: seq<nat>, n: nat, id: nat)
    requires n > 0
  {
    exists i :: 0 <= i < |ids| && ids[i] == id && ArrayRun(ids[..i + 1], n).status == Ok
  }

  lemma StaysAccepted(ids: seq<nat>, n: nat, id: nat, next: nat)
    requires n > 0 && WasAccepted(ids, n, id)
    ensures WasAccepted(ids + [next], n, id)
  {
    var i :| 0 <= i < |ids| && ids[i] == id && ArrayRun(ids[..i + 1], n).status == Ok;
    assert (ids + [next])[..i + 1] == ids[..i + 1];
  }

  /** Only accepted identifiers are remembered. */
  lemma {:induction false} RememberedWasAccepted(ids: seq<nat>, n: nat, id: nat)
    requires n > 0 && id in ArrayRun(ids, n).state
    ensures WasAccepted(ids, n, id)
    decreases |ids|
  {
    hide WasAccepted, Insert;
    var before, next := ids[..|ids| - 1], ids[|ids| - 1];
    var v := Compact(ArrayRun(before, n).state, n);
    InsertContents(v, next);
    assert before + [next] == ids;
    if id in v {
      RememberedWasAccepted(before, n, id);
      StaysAccepted(before, n, id, next);
    } else {
      assert id in SetOf(Insert(v, next));
      AcceptedLast(ids, n);
    }
  }

  lemma AcceptedLast(ids: seq<nat>, n: nat)
    requires n > 0 && ids != [] && ArrayRun(ids, n).status == Ok
    ensures WasAccepted(ids, n, ids[|ids| - 1])
  {
    assert ids[..|ids| - 1 + 1] == ids;
  }

  /** What the array checker answers after any run: an identifier accepted before is answered as already processed
      while it is remembered and as too old afterwards; only such a one is answered as already processed, and too
      old is only what lies below n or more accepted ones. */
  lemma RunAnswers(ids: seq<nat>, n: nat, id: nat)
    requires n > 0
    ensures var answer, v := ArrayRun(ids + [id], n).status, Compact(ArrayRun(ids, n).state, n);
            && (WasAccepted(ids, n, id) ==> answer == if id in v then AlreadyProcessed else TooOld)
            && (answer == AlreadyProcessed ==> WasAccepted(ids, n, id))
            && (answer == TooOld ==>
                  |v| >= n && Sorted(v) && forall x :: x in v ==> id < x && WasAccepted(ids, n, x))
  {
    hide Insert, ArrayRun;
    LastCheck(ids, n, id);
    var w := ArrayRun(ids, n).state;
    var v := Compact(w, n);
    forall x | x in v
      ensures WasAccepted(ids, n, x)
    {
      RememberedWasAccepted(ids, n, x);
    }
    if WasAccepted(ids, n, id) {
      var i :| 0 <= i < |ids| && ids[i] == id && ArrayRun(ids[..i + 1], n).status == Ok;
      AcceptedIsKnown(ids, n, i);
      CompactKeepsKnown(w, n, id);
    }
  }

  /** The sets answer the same as long as an identifier is in the window, and too old below a full one. */
  lemma SetRunAnswers(ids: seq<nat>, n: nat, id: nat)
    requires n > 0
    ensures var answer, s := SetRun(ids + [id], n).status, SetOf(Window(ArrayRun(ids, n).state, n));
            && (answer == AlreadyProcessed <==> id in s)
            && (answer == TooOld <==> |s| == n && forall x :: x in s ==> id < x)
            && forall x :: x in s ==> WasAccepted(ids, n, x)
  {
    hide WasAccepted, ArrayRun, SetRun, Sorted;
    LastCheck(ids, n, id);
    RunsAgree(ids, n);
    var w := ArrayRun(ids, n).state;
    forall x | x in SetOf(Window(w, n))
      ensures WasAccepted(ids, n, x)
    {
      assert x in w;
      RememberedWasAccepted(ids, n, x);
    }
  }

  lemma LastCheck(ids: seq<nat>, n: nat, id: nat)
    requires n > 0
    ensures ArrayRun(ids + [id], n) == ArrayCheck(ArrayRun(ids, n).state, n, id)
    ensures SetRun(ids + [id], n) == OldCheck(SetRun(ids, n).state, n, id)
  {
    hide ArrayCheck, OldCheck;
    assert (ids + [id])[..|ids|] == ids;
  }

  /** Growing identifiers are appended. */
  lemma GrowingRun(ids: seq<nat>, n: nat, id: nat)
    requires n > 0 && Sorted(ids) && |ids| < 2 * n && (ids == [] || id > ids[|ids| - 1])
    requires ArrayRun(ids, n).state == ids
    ensures Sorted(ids + [id]) && ArrayRun(ids + [id], n) == Checked(Ok, ids + [id])
  {
    hide Insert, ArrayRun, SetRun, OldCheck;
    AppendIsInsert(ids, id);
    LastCheck(ids, n, id);
  }

  lemma EmptyRun()
    ensures ArrayRun([], 2).state == []
  {
  }

  lemma RunOfThree()
    ensures ArrayRun([10, 20, 30], 2).state == [10, 20, 30]
  {
    hide ArrayRun;
    EmptyRun();
    GrowingRun([], 2, 10);
    assert [] + [10] == [10] && [10] + [20] == [10, 20] && [10, 20] + [30] == [10, 20, 30];
    GrowingRun([10], 2, 20);
    GrowingRun([10, 20], 2, 30);
  }

  /** With a window of two, 15 after 10, 20 and 30 is new to the array and too old for the sets. */
  lemma ArrayAcceptsMore()
    ensures ArrayRun([10, 20, 30, 15], 2).status == Ok
    ensures SetRun([10, 20, 30, 15], 2).status == TooOld
  {
    hide ArrayRun, SetOf, Least, SetRun;
    var w, window := [10, 20, 30], [20, 30];
    RunOfThree();
    RunsAgree(w, 2);
    assert Window(w, 2) == window;
    SizeOfSorted(window);
    LeastOfSorted(window);
    LastCheck(w, 2, 15);
    assert w + [15] == [10, 20, 30, 15];
  }
}
