/**
 * The two Python container operations `Net.linkReduce` relies on that can
 * raise: `list.remove` (ValueError when the item is absent) and `del d[k]`
 * (KeyError when the key is absent). Failures are None.
 */
module Containers {
  import opened Wrappers
  import opened Elements

  /** `list.remove(x)`: drops the first occurrence of `x`; None when there is none. */
  function RemoveFirst<T(==)>(s: seq<T>, x: T): (r: Option<seq<T>>)
    ensures r.None? <==> x !in s
    ensures r.Some? ==> |r.value| == |s| - 1 && multiset(r.value) == multiset(s) - multiset{x}
  {
    if s == [] then None
    else if s[0] == x then
      assert s == [s[0]] + s[1..];
      Some(s[1..])
    else
      match RemoveFirst(s[1..], x)
      case None => None
      case Some(rest) =>
        assert s == [s[0]] + s[1..];
        Some([s[0]] + rest)
  }

  /**
   * One more removal in a run of list.remove calls on `orig`, after those of
   * `done` left `now`: it succeeds exactly when `orig` still holds `x` more
   * often than `done` names it, and then leaves what `orig` holds beyond
   * `done + [x]`.
   */
  lemma RemoveStep<T>(orig: seq<T>, now: seq<T>, done: seq<T>, x: T)
    requires multiset(done) <= multiset(orig)
    requires multiset(now) == multiset(orig) - multiset(done)
    ensures RemoveFirst(now, x).Some? <==> multiset(done + [x]) <= multiset(orig)
    ensures RemoveFirst(now, x).Some? ==> multiset(RemoveFirst(now, x).value) == multiset(orig) - multiset(done + [x])
  {
    assert multiset(done + [x]) == multiset(done) + multiset{x};
    if x !in now {
      assert multiset(now)[x] == 0;
    }
  }

  /** A run of removals that fails on a prefix `pre` of `xs` fails on all of `xs`. */
  lemma RemovePrefixFails<T>(orig: seq<T>, xs: seq<T>, pre: seq<T>)
    requires pre <= xs && !(multiset(pre) <= multiset(orig))
    ensures !(multiset(xs) <= multiset(orig))
  {
    assert xs == pre + xs[|pre|..];
    var y :| multiset(pre)[y] > multiset(orig)[y];
    assert multiset(xs)[y] >= multiset(pre)[y];
  }

  /**
   * The removal of `xs[k]` after those of `xs[..k]`: it fails exactly when
   * the whole run must fail, and otherwise extends the run by one.
   */
  lemma RemoveNext<T>(orig: seq<T>, now: seq<T>, xs: seq<T>, k: nat)
    requires k < |xs| && multiset(xs[..k]) <= multiset(orig)
    requires multiset(now) == multiset(orig) - multiset(xs[..k])
    ensures RemoveFirst(now, xs[k]).None? ==> !(multiset(xs) <= multiset(orig))
    ensures RemoveFirst(now, xs[k]).Some? ==>
      multiset(xs[..k + 1]) <= multiset(orig) &&
      multiset(RemoveFirst(now, xs[k]).value) == multiset(orig) - multiset(xs[..k + 1])
  {
    assert xs[..k + 1] == xs[..k] + [xs[k]];
    RemoveStep(orig, now, xs[..k], xs[k]);
    if RemoveFirst(now, xs[k]).None? {
      RemovePrefixFails(orig, xs, xs[..k + 1]);
    }
  }

  /**
   * `for x in xs: s.remove(x)`: removes the first occurrence of each element
   * of `xs` in turn. `ok` is false when a removal raises, which is exactly
   * when `xs` names some element more often than `s` holds it; `r` is then
   * the list as the removals before that one left it.
   */
  method RemoveEach<T(==)>(s: seq<T>, xs: seq<T>) returns (r: seq<T>, ok: bool)
    ensures ok <==> multiset(xs) <= multiset(s)
    ensures ok ==> multiset(r) == multiset(s) - multiset(xs)
    ensures multiset(r) <= multiset(s)
  {
    r := s;
    var k := 0;
    while k < |xs|
      invariant k <= |xs| && multiset(xs[..k]) <= multiset(s)
      invariant multiset(r) == multiset(s) - multiset(xs[..k])
    {
      RemoveNext(s, r, xs, k);
      var next := RemoveFirst(r, xs[k]);
      if next.None? {
        return r, false;
      }
      r := next.value;
      k := k + 1;
    }
    assert xs[..k] == xs;
    ok := true;
  }

  /** A key of a Python dict that maps edge labels, or anything else, to edges. */
  datatype DictKey = LabelKey(text: string) | EdgeKey(edge: Edge)

  /** Net._fullEdges as the Python dict it is: its keys are edge labels. */
  function AsDict(m: map<string, Edge>): (d: map<DictKey, Edge>)
    ensures forall k :: k in d ==> k.LabelKey? && k.text in m && d[k] == m[k.text]
    ensures forall l :: l in m ==> LabelKey(l) in d
  {
    map l | l in m :: LabelKey(l) := m[l]
  }

  /** `del d[k]`: KeyError, None here, when `k` is not a key. */
  function DelItem(d: map<DictKey, Edge>, k: DictKey): (r: Option<map<DictKey, Edge>>)
    ensures r.Some? <==> k in d
    ensures r.Some? ==> k !in r.value && forall k' :: k' in d && k' != k ==> k' in r.value && r.value[k'] == d[k']
  {
    if k in d then Some(d - {k}) else None
  }

  /**
   * network.py:90 and :97 as written: `del self._fullEdges[edge]` uses the edge
   * object as the key of a dict keyed by labels.
   */
  function DeleteFullEdgeAsWritten(fullEdges: map<string, Edge>, edge: Edge): Option<map<DictKey, Edge>>
  {
    DelItem(AsDict(fullEdges), EdgeKey(edge))
  }

  /** As written, the deletion fails whatever the dict holds: linkReduce raises KeyError at its first splice. */
  lemma DeleteFullEdgeAsWrittenFails(fullEdges: map<string, Edge>, edge: Edge)
    ensures DeleteFullEdgeAsWritten(fullEdges, edge) == None
  {
    assert EdgeKey(edge) !in AsDict(fullEdges);
  }

  /**
   * The intended deletion, `del self._fullEdges[edge.label]`; it still fails
   * when the label is not a key.
   */
  function DeleteFullEdge(fullEdges: map<string, Edge>, edge: Edge): (r: Option<map<string, Edge>>)
    ensures r.Some? <==> edge.name in fullEdges
    ensures r.Some? ==> r.value.Keys == fullEdges.Keys - {edge.name}
    ensures r.Some? ==> forall l :: l in r.value ==> r.value[l] == fullEdges[l]
  {
    if edge.name in fullEdges then Some(fullEdges - {edge.name}) else None
  }

  /** Deleting by label is `del d[edge.label]` on the dict the map stands for. */
  lemma DeleteFullEdgeIsDelItem(fullEdges: map<string, Edge>, edge: Edge)
    ensures DeleteFullEdge(fullEdges, edge).Some? <==> DelItem(AsDict(fullEdges), LabelKey(edge.name)).Some?
    ensures DeleteFullEdge(fullEdges, edge).Some? ==>
      AsDict(DeleteFullEdge(fullEdges, edge).value) == DelItem(AsDict(fullEdges), LabelKey(edge.name)).value
  {
    if edge.name in fullEdges {
      assert AsDict(fullEdges - {edge.name}) == AsDict(fullEdges) - {LabelKey(edge.name)};
    }
  }

  /**
   * In a dict that files every edge under its own label, deleting by an
   * edge's label takes out exactly that edge.
   */
  lemma DeleteFullEdgeRemovesEdge(fullEdges: map<string, Edge>, edge: Edge)
    requires forall l :: l in fullEdges ==> fullEdges[l].name == l
    requires edge.name in fullEdges && fullEdges[edge.name] == edge
    ensures DeleteFullEdge(fullEdges, edge).Some?
    ensures edge !in DeleteFullEdge(fullEdges, edge).value.Values
    ensures DeleteFullEdge(fullEdges, edge).value.Values == fullEdges.Values - {edge}
  {
    var r := DeleteFullEdge(fullEdges, edge).value;
    assert AsDict(r) == AsDict(fullEdges) - {LabelKey(edge.name)};
    forall l | l in r ensures r[l] == fullEdges[l] && l != edge.name {
      assert LabelKey(l) in AsDict(r);
    }
    forall x | x in fullEdges.Values - {edge} ensures x in r.Values {
      var l :| l in fullEdges && fullEdges[l] == x;
      assert LabelKey(l) in AsDict(fullEdges) - {LabelKey(edge.name)};
      assert LabelKey(l) in AsDict(r);
    }
  }

  /** The labels of `es`, in order. */
  function Labels(es: seq<Edge>): (r: seq<string>)
    ensures |r| == |es| && forall i :: 0 <= i < |es| ==> r[i] == es[i].name
  {
    if es == [] then [] else Labels(es[..|es| - 1]) + [es[|es| - 1].name]
  }

  /** No label occurs twice in `names`. */
  predicate Distinct(names: seq<string>)
  {
    forall i, j :: 0 <= i < j < |names| ==> names[i] != names[j]
  }

  /**
   * The full edge dict after deleting the entries of `es` one after the
   * other by label, as linkReduce does; None when one of the deletions raises.
   */
  function DeleteAll(fullEdges: map<string, Edge>, es: seq<Edge>): Option<map<string, Edge>>
  {
    if es == [] then Some(fullEdges)
    else
      match DeleteAll(fullEdges, es[..|es| - 1])
      case None => None
      case Some(m) => DeleteFullEdge(m, es[|es| - 1])
  }

  /**
   * The deletions all succeed exactly when every label is a key and no
   * label repeats; then exactly those labels are gone.
   */
  lemma {:induction false} DeleteAllMeaning(fullEdges: map<string, Edge>, es: seq<Edge>)
    ensures DeleteAll(fullEdges, es).Some? <==> (forall l :: l in Labels(es) ==> l in fullEdges) && Distinct(Labels(es))
    ensures DeleteAll(fullEdges, es).Some? ==> DeleteAll(fullEdges, es).value == fullEdges - set l | l in Labels(es)
  {
    if es != [] {
      var front, last := es[..|es| - 1], es[|es| - 1];
      DeleteAllMeaning(fullEdges, front);
      assert Labels(es) == Labels(front) + [last.name];
      assert Distinct(Labels(es)) <==> Distinct(Labels(front)) && last.name !in Labels(front);
      assert (set l | l in Labels(es)) == (set l | l in Labels(front)) + {last.name};
    }
  }

  /** Once one deletion raises, deleting more labels after it still raises. */
  lemma {:induction false} DeleteAllPrefix(fullEdges: map<string, Edge>, es: seq<Edge>, n: nat)
    requires n <= |es| && DeleteAll(fullEdges, es[..n]).None?
    ensures DeleteAll(fullEdges, es).None?
    decreases |es| - n
  {
    if n < |es| {
      assert es[..n + 1][..n] == es[..n];
      assert DeleteAll(fullEdges, es[..n + 1]).None?;
      DeleteAllPrefix(fullEdges, es, n + 1);
    } else {
      assert es[..n] == es;
    }
  }

  /** One more deletion at the end of the list. */
  lemma DeleteAllSnoc(fullEdges: map<string, Edge>, es: seq<Edge>, k: nat)
    requires k < |es|
    ensures DeleteAll(fullEdges, es[..k + 1]) ==
      match DeleteAll(fullEdges, es[..k])
      case None => None
      case Some(m) => DeleteFullEdge(m, es[k])
  {
    assert es[..k + 1][..k] == es[..k];
  }

  /** Deleting the labels of `a + b` is deleting those of `a`, then those of `b` from what is left. */
  lemma {:induction false} DeleteAllAppend(fullEdges: map<string, Edge>, a: seq<Edge>, b: seq<Edge>)
    ensures DeleteAll(fullEdges, a + b) ==
      match DeleteAll(fullEdges, a)
      case None => None
      case Some(m) => DeleteAll(m, b)
    decreases |b|
  {
    if b == [] {
      assert a + b == a;
    } else {
      var front := b[..|b| - 1];
      assert (a + b)[..|a + b| - 1] == a + front;
      assert (a + b)[|a + b| - 1] == b[|b| - 1];
      DeleteAllAppend(fullEdges, a, front);
    }
  }

  /**
   * Deletions that all succeed shrink the dict by one entry per edge and
   * leave every other entry as it was.
   */
  lemma {:induction false} DeleteAllShrinks(fullEdges: map<string, Edge>, es: seq<Edge>)
    requires DeleteAll(fullEdges, es).Some?
    ensures |DeleteAll(fullEdges, es).value| == |fullEdges| - |es|
    ensures forall l :: l in DeleteAll(fullEdges, es).value ==> l in fullEdges && DeleteAll(fullEdges, es).value[l] == fullEdges[l]
  {
    if es != [] {
      var front, last := es[..|es| - 1], es[|es| - 1];
      DeleteAllShrinks(fullEdges, front);
      var m := DeleteAll(fullEdges, front).value;
      assert DeleteAll(fullEdges, es) == DeleteFullEdge(m, last);
      assert |m.Keys - {last.name}| == |m.Keys| - 1;
    }
  }
}
