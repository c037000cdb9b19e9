/** Grouping the linked functions, and spreading the groups over the output files. */
module SplitFiles {
  import opened DisjointSet
  import opened Options
  import opened GreedyPacking
  import opened SplitSource

  predicate NoRepeats(s: seq<nat>) {
    forall i, j :: 0 <= i < j < |s| ==> s[i] != s[j]
  }

  /** The functions below n with root r, in their order in the source */
  function Members(root: seq<nat>, r: nat, n: nat): (m: seq<nat>)
    requires n <= |root|
    ensures forall i :: 0 <= i < |m| ==> m[i] < n
  {
    if n == 0 then [] else Members(root, r, n - 1) + if root[n - 1] == r then [n - 1] else []
  }

  function Texts(functions: seq<string>, ids: seq<nat>): string
    requires forall i :: 0 <= i < |ids| ==> ids[i] < |functions|
    decreases |ids|
  {
    if ids == [] then "" else Texts(functions, ids[..|ids| - 1]) + functions[ids[|ids| - 1]]
  }

  lemma NoRepeatsConcat(a: seq<nat>, b: seq<nat>)
    requires NoRepeats(a) && NoRepeats(b) && forall x :: x in a ==> x !in b
    ensures NoRepeats(a + b)
  {
    forall i, j | 0 <= i < j < |a + b|
      ensures (a + b)[i] != (a + b)[j]
    {
      if i < |a| <= j {
        assert a[i] in a && b[j - |a|] in b;
      }
    }
  }

  lemma {:induction false} MembersAre(root: seq<nat>, r: nat, n: nat)
    requires n <= |root|
    ensures NoRepeats(Members(root, r, n))
    ensures forall i: nat :: i in Members(root, r, n) <==> i < n && root[i] == r
  {
    if n > 0 {
      MembersAre(root, r, n - 1);
      NoRepeatsConcat(Members(root, r, n - 1), if root[n - 1] == r then [n - 1] else []);
    }
  }

  lemma {:induction false} TextsConcat(functions: seq<string>, a: seq<nat>, b: seq<nat>)
    requires forall i :: 0 <= i < |a| ==> a[i] < |functions|
    requires forall i :: 0 <= i < |b| ==> b[i] < |functions|
    ensures Texts(functions, a + b) == Texts(functions, a) + Texts(functions, b)
    decreases |b|
  {
    if b == [] {
      assert a + b == a;
    } else {
      var last := |b| - 1;
      TextsConcat(functions, a, b[..last]);
      assert (a + b)[..|a + b| - 1] == a + b[..last];
      assert Texts(functions, a) + (Texts(functions, b[..last]) + functions[b[last]])
          == Texts(functions, a) + Texts(functions, b[..last]) + functions[b[last]];
    }
  }

  // ---------- Groups

  datatype Groups = Groups(texts: map<nat, string>, sizes: map<nat, nat>)

  function GroupText(functions: seq<string>, root: seq<nat>, r: nat, n: nat): string
    requires n <= |root| <= |functions|
  {
    Texts(functions, Members(root, r, n))
  }

  lemma GroupTextNext(functions: seq<string>, root: seq<nat>, r: nat, i: nat)
    requires i < |root| <= |functions|
    ensures GroupText(functions, root, r, i + 1)
            == GroupText(functions, root, r, i) + if root[i] == r then functions[i] else ""
  {
    if root[i] == r {
      assert Members(root, r, i + 1)[..|Members(root, r, i)|] == Members(root, r, i);
    } else {
      assert Members(root, r, i) + [] == Members(root, r, i);
      assert GroupText(functions, root, r, i) + "" == GroupText(functions, root, r, i);
    }
  }

  lemma {:induction false} NoMembers(root: seq<nat>, r: nat, n: nat)
    requires n <= |root| && forall i :: 0 <= i < n ==> root[i] != r
    ensures Members(root, r, n) == []
  {
    if n > 0 {
      NoMembers(root, r, n - 1);
    }
  }

  ghost predicate IsRoot(root: seq<nat>, n: nat, r: nat)
    requires n <= |root|
  {
    exists i :: 0 <= i < n && root[i] == r
  }

  /** Exactly the roots of the first n functions have a group: the text of their functions, and its length. */
  ghost predicate AreGroups(g: Groups, functions: seq<string>, root: seq<nat>, n: nat)
    requires n <= |root| <= |functions|
  {
    && (forall r: nat :: r in g.texts <==> IsRoot(root, n, r))
    && (forall r: nat :: r in g.sizes <==> r in g.texts)
    && (forall r: nat :: r in g.texts ==> g.texts[r] == GroupText(functions, root, r, n))
    && (forall r: nat :: r in g.sizes ==> g.sizes[r] == |g.texts[r]|)
  }

  method Group(functions: seq<string>, sets: DisjointSet) returns (g: Groups)
    requires sets.Valid() && sets.parents.Length == |functions| == |sets.root|
    modifies sets.parents
    ensures sets.Valid() && AreGroups(g, functions, sets.root, |functions|)
  {
    hide AreGroups, Forest;
    g := Groups(map[], map[]);
    NoGroups(functions, sets.root);
    for i := 0 to |functions|
      invariant sets.Valid() && AreGroups(g, functions, sets.root, i)
    {
      var r := sets.Find(i);
      GroupGrows(g, functions, sets.root, i);
      SameKeys(g, functions, sets.root, i);
      if r !in g.texts {
        g := Groups(g.texts[r := ""], g.sizes[r := 0]);
      }
      g := Groups(g.texts[r := g.texts[r] + functions[i]], g.sizes[r := g.sizes[r] + |functions[i]|]);
    }
  }

  lemma NoGroups(functions: seq<string>, root: seq<nat>)
    requires |root| <= |functions|
    ensures AreGroups(Groups(map[], map[]), functions, root, 0)
  {
  }

  lemma SameKeys(g: Groups, functions: seq<string>, root: seq<nat>, n: nat)
    requires n <= |root| <= |functions| && AreGroups(g, functions, root, n)
    ensures forall r: nat :: r in g.sizes <==> r in g.texts
  {
  }

  /** The groups with the text of one more function */
  function WithFunction(g: Groups, r: nat, text: string): Groups {
    var g' := if r in g.texts then g else Groups(g.texts[r := ""], g.sizes[r := 0]);
    if r in g'.sizes then Groups(g'.texts[r := g'.texts[r] + text], g'.sizes[r := g'.sizes[r] + |text|]) else g'
  }

  lemma GroupGrows(g: Groups, functions: seq<string>, root: seq<nat>, i: nat)
    requires i < |root| <= |functions| && AreGroups(g, functions, root, i)
    ensures AreGroups(WithFunction(g, root[i], functions[i]), functions, root, i + 1)
  {
    hide GroupText;
    var after := WithFunction(g, root[i], functions[i]);
    forall r: nat
      ensures IsRoot(root, i + 1, r) <==> r == root[i] || IsRoot(root, i, r)
      ensures r in after.texts ==> after.texts[r] == GroupText(functions, root, r, i + 1)
    {
      GroupTextNext(functions, root, r, i);
      assert GroupText(functions, root, r, i) + "" == GroupText(functions, root, r, i);
      if r !in g.texts {
        NoGroup(functions, root, r, i);
      }
    }
  }

  lemma NoGroup(functions: seq<string>, root: seq<nat>, r: nat, n: nat)
    requires n <= |root| <= |functions| && !IsRoot(root, n, r)
    ensures GroupText(functions, root, r, n) == ""
  {
    NoMembers(root, r, n);
  }

  // ---------- Sorting

  lemma LargestExists(rest: set<nat>, sizes: map<nat, nat>) returns (r: nat)
    requires rest != {} && rest <= sizes.Keys
    ensures r in rest && forall q :: q in rest ==> sizes[q] <= sizes[r]
  {
    r :| r in rest;
    if rest != {r} {
      assert forall q :: q in rest ==> q == r || q in rest - {r};
      var s := LargestExists(rest - {r}, sizes);
      if sizes[s] > sizes[r] {
        r := s;
      }
    }
  }

  /** arsort: the keys by size, largest first; nothing is said about the order of equal sizes. */
  method Arsort(sizes: map<nat, nat>) returns (order: seq<nat>)
    ensures NoRepeats(order) && forall r :: r in order <==> r in sizes
    ensures forall i, j :: 0 <= i < j < |order| ==> sizes[order[i]] >= sizes[order[j]]
  {
    order := [];
    var rest := sizes.Keys;
    while rest != {}
      invariant rest <= sizes.Keys && NoRepeats(order)
      invariant forall r :: r in order <==> r in sizes && r !in rest
      invariant forall i, j :: 0 <= i < j < |order| ==> sizes[order[i]] >= sizes[order[j]]
      invariant forall i, q :: 0 <= i < |order| && q in rest ==> sizes[order[i]] >= sizes[q]
      decreases |rest|
    {
      ghost var largest := LargestExists(rest, sizes);
      var r :| r in rest && forall q :: q in rest ==> sizes[q] <= sizes[r];
      order := order + [r];
      rest := rest - {r};
    }
  }

  // ---------- Spreading

  /** What file f holds: the members of the groups assigned to it */
  function Contents(root: seq<nat>, order: seq<nat>, assign: seq<nat>, f: nat): (ids: seq<nat>)
    requires |order| == |assign|
    ensures forall i :: 0 <= i < |ids| ==> ids[i] < |root|
    decreases |order|
  {
    if order == [] then []
    else
      var last := |order| - 1;
      Contents(root, order[..last], assign[..last], f)
      + if assign[last] == f then Members(root, order[last], |root|) else []
  }

  /** The group of root r was assigned to file f. */
  ghost predicate GoesTo(order: seq<nat>, assign: seq<nat>, r: nat, f: nat)
    requires |order| == |assign|
  {
    exists k :: 0 <= k < |order| && order[k] == r && assign[k] == f
  }

  lemma {:induction false} ContentsAre(root: seq<nat>, order: seq<nat>, assign: seq<nat>, f: nat)
    requires |order| == |assign| && NoRepeats(order)
    ensures NoRepeats(Contents(root, order, assign, f))
    ensures forall i: nat :: i in Contents(root, order, assign, f) <==> i < |root| && GoesTo(order, assign, root[i], f)
    decreases |order|
  {
    if order != [] {
      var last := |order| - 1;
      ContentsAre(root, order[..last], assign[..last], f);
      MembersAre(root, order[last], |root|);
      var before, added := Contents(root, order[..last], assign[..last], f), Members(root, order[last], |root|);
      forall i: nat | i < |root|
        ensures GoesTo(order, assign, root[i], f) <==>
                  GoesTo(order[..last], assign[..last], root[i], f) || (order[last] == root[i] && assign[last] == f)
      {
        GoesToNext(order, assign, root[i], f);
      }
      if assign[last] == f {
        forall i: nat | i in before
          ensures i !in added
        {
          assert GoesTo(order[..last], assign[..last], root[i], f);
        }
        NoRepeatsConcat(before, added);
      }
    }
  }

  lemma GoesToNext(order: seq<nat>, assign: seq<nat>, r: nat, f: nat)
    requires |order| == |assign| > 0
    ensures var last := |order| - 1;
            GoesTo(order, assign, r, f) <==>
              GoesTo(order[..last], assign[..last], r, f) || (order[last] == r && assign[last] == f)
  {
    var last := |order| - 1;
    if GoesTo(order[..last], assign[..last], r, f) {
      var k :| 0 <= k < last && order[..last][k] == r && assign[..last][k] == f;
      assert order[k] == r && assign[k] == f;
    }
    if GoesTo(order, assign, r, f) && !(order[last] == r && assign[last] == f) {
      var k :| 0 <= k < |order| && order[k] == r && assign[k] == f;
      assert order[..last][k] == r && assign[..last][k] == f;
    }
  }

  /** min and array_search: the first file of the smallest size */
  method FindSmallest(fileSizes: array<nat>) returns (f: nat)
    requires fileSizes.Length > 0
    ensures f < fileSizes.Length && forall g :: 0 <= g < fileSizes.Length ==> fileSizes[f] <= fileSizes[g]
    ensures forall g :: 0 <= g < f ==> fileSizes[g] != fileSizes[f]
  {
    f := 0;
    for g := 1 to fileSizes.Length
      invariant f < g && forall h :: 0 <= h < g ==> fileSizes[f] <= fileSizes[h]
      invariant forall h :: 0 <= h < f ==> fileSizes[h] != fileSizes[f]
    {
      if fileSizes[g] < fileSizes[f] {
        f := g;
      }
    }
  }

  function SizesOf(sizes: map<nat, nat>, order: seq<nat>): (s: seq<nat>)
    requires forall k :: 0 <= k < |order| ==> order[k] in sizes
    ensures |s| == |order|
  {
    seq(|order|, k requires 0 <= k < |order| => sizes[order[k]])
  }

  /** The loop over the groups */
  method Spread(functions: seq<string>, g: Groups, order: seq<nat>, chunks: nat, ghost root: seq<nat>)
    returns (files: seq<string>, fileSizes: seq<nat>, ghost assign: seq<nat>)
    requires chunks > 0 && |root| == |functions| && AreGroups(g, functions, root, |root|)
    requires forall k :: 0 <= k < |order| ==> order[k] in g.sizes
    ensures |files| == |fileSizes| == chunks && |assign| == |order|
    ensures IsGreedy(SizesOf(g.sizes, order), assign, chunks)
    ensures forall f :: 0 <= f < chunks ==> fileSizes[f] == Load(SizesOf(g.sizes, order), assign, f) == |files[f]|
    ensures forall f :: 0 <= f < chunks ==> files[f] == Texts(functions, Contents(root, order, assign, f))
  {
    hide AreGroups, Texts, Load, IsGreedy, Contents;
    var contents, loads := new string[chunks](_ => ""), new nat[chunks](_ => 0);
    assign := [];
    ghost var sizes := SizesOf(g.sizes, order);
    NothingSpread(functions, root, chunks);
    assert sizes[..0] == [] && order[..0] == [];
    for k := 0 to |order|
      invariant |assign| == k && IsGreedy(sizes[..k], assign, chunks)
      invariant forall f :: 0 <= f < chunks ==> loads[f] == Load(sizes[..k], assign, f) == |contents[f]|
      invariant forall f :: 0 <= f < chunks ==> contents[f] == Texts(functions, Contents(root, order[..k], assign, f))
    {
      var r := order[k];
      assert r in g.texts && g.texts[r] == GroupText(functions, root, r, |root|) && g.sizes[r] == |g.texts[r]| by {
        GroupOf(g, functions, root, r);
      }
      var f := FindSmallest(loads);
      ghost var before, done := sizes[..k], order[..k];
      assert sizes[..k + 1] == before + [g.sizes[r]] && order[..k + 1] == done + [r];
      forall h | 0 <= h < chunks
        ensures Load(before, assign, f) <= Load(before, assign, h)
      {
        assert loads[f] <= loads[h];
      }
      OneMoreSize(before, assign, g.sizes[r], chunks, f);
      OneMoreText(functions, root, done, assign, r, f);
      assign := assign + [f];
      contents[f] := contents[f] + g.texts[r];
      loads[f] := loads[f] + g.sizes[r];
    }
    assert sizes[..|order|] == sizes && order[..|order|] == order;
    files, fileSizes := contents[..], loads[..];
  }

  lemma NothingSpread(functions: seq<string>, root: seq<nat>, chunks: nat)
    ensures IsGreedy([], [], chunks)
    ensures forall f: nat :: Load([], [], f) == 0 == |Texts(functions, Contents(root, [], [], f))|
  {
    NoText(functions);
    forall f: nat
      ensures Load([], [], f) == 0
      ensures Contents(root, [], [], f) == []
    {
      NoContents(root, f);
      NoLoad(f);
    }
  }

  lemma NoContents(root: seq<nat>, f: nat)
    ensures Contents(root, [], [], f) == []
  {
  }

  lemma GroupOf(g: Groups, functions: seq<string>, root: seq<nat>, r: nat)
    requires |root| <= |functions| && AreGroups(g, functions, root, |root|) && r in g.sizes
    ensures r in g.texts && g.texts[r] == GroupText(functions, root, r, |root|) && g.sizes[r] == |g.texts[r]|
  {
  }

  lemma OneMoreSize(sizes: seq<nat>, assign: seq<nat>, size: nat, m: nat, f: nat)
    requires |sizes| == |assign| && f < m && IsGreedy(sizes, assign, m)
    requires forall h :: 0 <= h < m ==> Load(sizes, assign, f) <= Load(sizes, assign, h)
    ensures IsGreedy(sizes + [size], assign + [f], m)
    ensures forall h: nat ::
              Load(sizes + [size], assign + [f], h) == Load(sizes, assign, h) + if f == h then size else 0
  {
    assert (sizes + [size])[..|sizes|] == sizes && (assign + [f])[..|sizes|] == assign;
  }

  lemma OneMoreText(functions: seq<string>, root: seq<nat>, order: seq<nat>, assign: seq<nat>, r: nat, f: nat)
    requires |order| == |assign| && |root| <= |functions|
    ensures forall h: nat ::
              Texts(functions, Contents(root, order + [r], assign + [f], h))
              == Texts(functions, Contents(root, order, assign, h))
                 + if f == h then GroupText(functions, root, r, |root|) else ""
  {
    hide Texts, Contents, GroupText;
    forall h: nat
      ensures Texts(functions, Contents(root, order + [r], assign + [f], h))
              == Texts(functions, Contents(root, order, assign, h))
                 + if f == h then GroupText(functions, root, r, |root|) else ""
    {
      OneMoreIn(functions, root, order, assign, r, f, h);
    }
  }

  lemma OneMoreIn(functions: seq<string>, root: seq<nat>, order: seq<nat>, assign: seq<nat>, r: nat, f: nat, h: nat)
    requires |order| == |assign| && |root| <= |functions|
    ensures Texts(functions, Contents(root, order + [r], assign + [f], h))
            == Texts(functions, Contents(root, order, assign, h))
               + if f == h then GroupText(functions, root, r, |root|) else ""
  {
    hide Texts, Members;
    assert (order + [r])[..|order|] == order && (assign + [f])[..|order|] == assign;
    var before, added := Contents(root, order, assign, h), if f == h then Members(root, r, |root|) else [];
    assert Contents(root, order + [r], assign + [f], h) == before + added;
    TextsConcat(functions, before, added);
    NoText(functions);
  }

  lemma NoText(functions: seq<string>)
    ensures Texts(functions, []) == ""
  {
  }

  /** The file of a function: the one that the group of its root went to */
  ghost function FileOf(root: seq<nat>, order: seq<nat>, assign: seq<nat>, i: nat): (f: nat)
    requires i < |root| && root[i] in order && |order| == |assign|
    ensures GoesTo(order, assign, root[i], f)
  {
    var k :| 0 <= k < |order| && order[k] == root[i];
    assign[k]
  }

  /** From the functions and their names to the files. None: too few functions for the chunks. The ghost results
      say which file each function is in, what each file holds, and how the groups of linked functions were placed. */
  method SplitFunctions(functions: seq<string>, deps: seq<seq<nat>>, chunks: nat)
    returns (files: Option<seq<string>>, fileSizes: seq<nat>, ghost fileOf: seq<nat>, ghost contents: seq<seq<nat>>,
             ghost groups: seq<seq<nat>>, ghost sizes: seq<nat>, ghost assign: seq<nat>)
    requires chunks > 0 && AreIds(deps, |functions|)
    ensures files.None? <==> |functions| < chunks
    ensures files.Some? ==>
              |files.value| == |fileSizes| == |contents| == chunks && |sizes| == |assign| && |fileOf| == |functions|
    // every function is in exactly one file, once
    ensures files.Some? ==> IsPartition(fileOf, contents)
    // linked functions are in the same file
    ensures files.Some? ==>
              forall i: nat, j: nat :: i < |functions| && j < |functions| && Linked(deps, i, j) ==>
                fileOf[i] == fileOf[j]
    // a file is the text of its functions, and its recorded size is its length
    ensures files.Some? ==> forall f :: 0 <= f < chunks ==>
                && (forall k :: 0 <= k < |contents[f]| ==> contents[f][k] < |functions|)
                && files.value[f] == Texts(functions, contents[f])
                && fileSizes[f] == |files.value[f]| == Load(sizes, assign, f)
    // the groups are the classes of linked functions; the largest comes first, each into the smallest file
    ensures files.Some? ==> |groups| == |sizes| && forall k :: 0 <= k < |groups| ==>
                IsLinkClass(deps, |functions|, groups[k]) && sizes[k] == |Texts(functions, groups[k])|
    ensures files.Some? ==> Descending(sizes) && IsGreedy(sizes, assign, chunks)
  {
    hide AreGroups, Linked, Contents, IsGreedy, Load, Texts, NoRepeats, Forest, IsLinkClass;
    fileOf, contents, groups, sizes, assign := [], [], [], [], [];
    if |functions| < chunks {
      return None, [], fileOf, contents, groups, sizes, assign;
    }
    var sets := LinkFunctions(|functions|, deps);
    ghost var root := sets.root;
    var g := Group(functions, sets);
    var order := Arsort(g.sizes);
    sizes := SizesOf(g.sizes, order);
    var texts;
    texts, fileSizes, assign := Spread(functions, g, order, chunks, root);
    files := Some(texts);
    GreedyAssigns(sizes, assign, chunks);
    GroupsAreOrdered(g, functions, root, order);
    groups := seq(|order|, k requires 0 <= k < |order| => Members(root, order[k], |root|));
    forall k | 0 <= k < |order|
      ensures IsLinkClass(deps, |functions|, groups[k]) && sizes[k] == |Texts(functions, groups[k])|
    {
      assert order[k] in g.sizes;
      GroupOf(g, functions, root, order[k]);
      MembersAreLinked(deps, root, order[k]);
    }
    contents := seq(chunks, f requires 0 <= f < chunks => Contents(root, order, assign, f));
    fileOf := seq(|functions|, i requires 0 <= i < |functions| => FileOf(root, order, assign, i));
    FilesAreParts(root, order, assign, chunks, fileOf, contents);
    forall i: nat, j: nat | i < |functions| && j < |functions| && Linked(deps, i, j)
      ensures fileOf[i] == fileOf[j]
    {
      OneFilePerRoot(order, assign, root[i], fileOf[i], fileOf[j]);
    }
  }

  /** All the functions that are linked to any one of them */
  ghost predicate IsLinkClass(deps: seq<seq<nat>>, n: nat, ids: seq<nat>) {
    && NoRepeats(ids) && (forall k :: 0 <= k < |ids| ==> ids[k] < n)
    && forall i: nat, j: nat :: i in ids && j < n ==> (j in ids <==> Linked(deps, i, j))
  }

  lemma MembersAreLinked(deps: seq<seq<nat>>, root: seq<nat>, r: nat)
    requires forall a: nat, b: nat :: a < |root| && b < |root| ==> (root[a] == root[b] <==> Linked(deps, a, b))
    ensures IsLinkClass(deps, |root|, Members(root, r, |root|))
  {
    hide Linked, Members;
    MembersAre(root, r, |root|);
  }

  /** File f holds exactly the functions that belong there, each once. */
  ghost predicate IsPartition(fileOf: seq<nat>, contents: seq<seq<nat>>) {
    && (forall i :: 0 <= i < |fileOf| ==> fileOf[i] < |contents|)
    && (forall f :: 0 <= f < |contents| ==> NoRepeats(contents[f]))
    && (forall f, i: nat :: 0 <= f < |contents| ==> (i in contents[f] <==> i < |fileOf| && fileOf[i] == f))
  }

  lemma GroupsAreOrdered(g: Groups, functions: seq<string>, root: seq<nat>, order: seq<nat>)
    requires |root| == |functions| && AreGroups(g, functions, root, |root|)
    requires forall r: nat :: r in order <==> r in g.sizes
    ensures forall i :: 0 <= i < |root| ==> root[i] in order
  {
    forall i | 0 <= i < |root|
      ensures root[i] in order
    {
      assert IsRoot(root, |root|, root[i]);
    }
  }

  lemma OneFilePerRoot(order: seq<nat>, assign: seq<nat>, r: nat, f: nat, h: nat)
    requires |order| == |assign| && NoRepeats(order) && GoesTo(order, assign, r, f) && GoesTo(order, assign, r, h)
    ensures f == h
  {
  }

  lemma FilesAreParts(root: seq<nat>, order: seq<nat>, assign: seq<nat>, chunks: nat,
                      fileOf: seq<nat>, contents: seq<seq<nat>>)
    requires |order| == |assign| && NoRepeats(order) && IsAssignment(assign, chunks)
    requires |fileOf| == |root| && |contents| == chunks && forall i :: 0 <= i < |root| ==> root[i] in order
    requires forall i :: 0 <= i < |root| ==> fileOf[i] == FileOf(root, order, assign, i)
    requires forall f :: 0 <= f < chunks ==> contents[f] == Contents(root, order, assign, f)
    ensures IsPartition(fileOf, contents)
  {
    hide FileOf, Contents, NoRepeats;
    forall f | 0 <= f < chunks
      ensures NoRepeats(contents[f])
      ensures forall i: nat :: i in contents[f] <==> i < |root| && fileOf[i] == f
    {
      ContentsAre(root, order, assign, f);
      forall i: nat | i < |root|
        ensures GoesTo(order, assign, root[i], f) <==> fileOf[i] == f
      {
        assert GoesTo(order, assign, root[i], fileOf[i]);
        if GoesTo(order, assign, root[i], f) {
          OneFilePerRoot(order, assign, root[i], f, fileOf[i]);
        }
      }
    }
    forall i | 0 <= i < |fileOf|
      ensures fileOf[i] < chunks
    {
      assert GoesTo(order, assign, root[i], fileOf[i]);
    }
  }
}
