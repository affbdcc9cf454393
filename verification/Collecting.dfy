/** Results gathered in a loop that skips what yields none. */
module Collecting {
  import opened Common

  /** f of the elements of two lists, pair by pair. */
  function Zip<A, B, T>(a: seq<A>, b: seq<B>, f: (A, B) -> T): (r: seq<T>)
    requires |a| == |b|
    ensures |r| == |a| && forall i :: 0 <= i < |r| ==> r[i] == f(a[i], b[i])
  {
    seq(|a|, i requires 0 <= i < |a| => f(a[i], b[i]))
  }

  lemma ZipAppend<A, B, T>(a: seq<A>, b: seq<B>, f: (A, B) -> T, x: A, y: B)
    requires |a| == |b|
    ensures Zip(a + [x], b + [y], f) == Zip(a, b, f) + [f(x, y)]
  {
  }

  /** The results there are, in order. */
  function Collect<T>(options: seq<Option<T>>): seq<T> {
    if options == [] then []
    else
      var before := Collect(options[..|options| - 1]);
      match options[|options| - 1]
      case None => before
      case Some(x) => before + [x]
  }

  lemma CollectAppend<T>(options: seq<Option<T>>, x: Option<T>)
    ensures Collect(options + [x]) == if x.Some? then Collect(options) + [x.value] else Collect(options)
  {
    assert (options + [x])[..|options|] == options;
  }

  /** results[j] is what turn turns[j] yields, in order, and nothing that a turn yields is missing. */
  ghost predicate IsExact<T>(options: seq<Option<T>>, results: seq<T>, turns: seq<nat>) {
    && |turns| == |results|
    && (forall j :: 0 <= j < |turns| ==> turns[j] < |options| && options[turns[j]] == Some(results[j]))
    && (forall j, k :: 0 <= j < k < |turns| ==> turns[j] < turns[k])
    && (forall i: nat :: i < |options| && options[i].Some? ==> i in turns)
  }

  lemma ExactSkip<T>(options: seq<Option<T>>, results: seq<T>, turns: seq<nat>)
    requires options != [] && options[|options| - 1].None?
    requires IsExact(options[..|options| - 1], results, turns)
    ensures IsExact(options, results, turns)
  {
    var init := options[..|options| - 1];
    forall i: nat | i < |options| && options[i].Some? ensures i in turns {
      assert init[i] == options[i];
    }
    forall j | 0 <= j < |turns| ensures turns[j] < |options| && options[turns[j]] == Some(results[j]) {
      assert init[turns[j]] == options[turns[j]];
    }
  }

  lemma ExactTake<T>(options: seq<Option<T>>, results: seq<T>, turns: seq<nat>, x: T)
    requires options != [] && options[|options| - 1] == Some(x)
    requires IsExact(options[..|options| - 1], results, turns)
    ensures IsExact(options, results + [x], turns + [|options| - 1])
  {
    var n := |options| - 1;
    var init, more := options[..n], turns + [n];
    forall i: nat | i < |options| && options[i].Some? ensures i in more {
      if i < n {
        assert init[i] == options[i];
        assert i in turns;
      } else {
        assert more[|turns|] == i;
      }
    }
    forall j | 0 <= j < |more| ensures more[j] < |options| && options[more[j]] == Some((results + [x])[j]) {
      if j < |turns| {
        assert init[turns[j]] == options[turns[j]];
      }
    }
  }

  lemma {:induction false} CollectIsExact<T>(options: seq<Option<T>>) returns (turns: seq<nat>)
    ensures IsExact(options, Collect(options), turns)
    decreases |options|
  {
    turns := [];
    if options != [] {
      var n := |options| - 1;
      turns := CollectIsExact(options[..n]);
      if options[n].Some? {
        ExactTake(options, Collect(options[..n]), turns, options[n].value);
        turns := turns + [n];
      } else {
        ExactSkip(options, Collect(options[..n]), turns);
        assert Collect(options) == Collect(options[..n]);
      }
    }
  }

  lemma ExactIff<T>(options: seq<Option<T>>, results: seq<T>, turns: seq<nat>, i: nat)
    requires IsExact(options, results, turns) && i < |options|
    ensures i in turns <==> options[i].Some?
  {
  }

  function Filtered<T>(s: seq<T>, keep: T -> bool): seq<T> {
    if s == [] then []
    else
      var x := s[|s| - 1];
      Filtered(s[..|s| - 1], keep) + if keep(x) then [x] else []
  }

  lemma FilteredAppend<T>(s: seq<T>, x: T, keep: T -> bool)
    ensures Filtered(s + [x], keep) == Filtered(s, keep) + if keep(x) then [x] else []
  {
    assert (s + [x])[..|s|] == s;
  }

  /** Dropping what is not wanted turn by turn is filtering the whole. */
  lemma {:induction false} CollectFiltered<T>(all: seq<Option<T>>, wanted: seq<Option<T>>, keep: T -> bool)
    requires |wanted| == |all|
    requires forall i :: 0 <= i < |all| ==> wanted[i] == if all[i].Some? && keep(all[i].value) then all[i] else None
    ensures Collect(wanted) == Filtered(Collect(all), keep)
    decreases |all|
  {
    if all != [] {
      var n := |all| - 1;
      var before := Collect(all[..n]);
      CollectFiltered(all[..n], wanted[..n], keep);
      if all[n].None? {
        assert Collect(all) == before;
        assert Collect(wanted) == Collect(wanted[..n]);
      } else {
        assert Collect(all) == before + [all[n].value];
        FilteredAppend(before, all[n].value, keep);
      }
    }
  }
}
