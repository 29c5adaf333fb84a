// Pruning and merging command-line arguments (internal/pkg/manifests/util.go).
// `Pruning` and `FlagMerge` are about lists of anything; `Args` instantiates them with the
// operator's strings and works on Go slices.

module Pruning {
  import opened Basics

  /** The elements that `drop` rejects, in order. */
  function Keep<T>(drop: T -> bool, s: seq<T>): seq<T> {
    if s == [] then []
    else (if drop(s[0]) then [] else [s[0]]) + Keep(drop, s[1..])
  }

  function LastOr<T>(s: seq<T>, x: T): T {
    if s == [] then x else s[|s| - 1]
  }

  /** What deleting in place, from the back, leaves behind the kept elements. */
  function Stale<T>(drop: T -> bool, s: seq<T>): (stale: seq<T>)
    ensures |Keep(drop, s)| + |stale| == |s|
  {
    if s == [] then []
    else (if drop(s[0]) then [LastOr(Keep(drop, s[1..]), s[0])] else []) + Stale(drop, s[1..])
  }

  /** The backing array after element `i` of the slice of length `n` was deleted: the last element stays. */
  function Shifted<T>(s: seq<T>, n: nat, i: nat): seq<T>
    requires i < n <= |s|
  {
    s[..i] + s[i + 1..n] + s[n - 1..]
  }

  lemma ShiftedAt<T>(s: seq<T>, n: nat, i: nat)
    requires i < n <= |s|
    ensures |Shifted(s, n, i)| == |s|
    ensures forall k | 0 <= k < |s| :: Shifted(s, n, i)[k] == s[if i <= k < n - 1 then k + 1 else k]
  {
  }

  lemma EmptyFront<T>(s: seq<T>)
    ensures [] + s == s
  {
  }

  lemma PruneCons<T>(drop: T -> bool, x: T, u: seq<T>)
    ensures drop(x) ==>
              && Keep(drop, [x] + u) == Keep(drop, u)
              && Stale(drop, [x] + u) == [LastOr(Keep(drop, u), x)] + Stale(drop, u)
    ensures !drop(x) ==> Keep(drop, [x] + u) == [x] + Keep(drop, u) && Stale(drop, [x] + u) == Stale(drop, u)
  {
    assert ([x] + u)[1..] == u;
    EmptyFront(Keep(drop, u));
    EmptyFront(Stale(drop, u));
  }

  lemma DeleteStep<T>(front: seq<T>, x: T, kept: seq<T>, tail: seq<T>)
    ensures ((front + [x]) + (kept + tail))[|front|] == x
    ensures Shifted((front + [x]) + (kept + tail), |front| + 1 + |kept|, |front|)
         == front + (kept + ([LastOr(kept, x)] + tail))
  {
  }

  lemma DropValues<T>(front: seq<T>, x: T, kept: seq<T>, stale: seq<T>, rest: seq<T>, stale': seq<T>)
    requires stale' == [LastOr(kept, x)] + stale
    ensures Shifted((front + [x]) + (kept + (stale + rest)), |front| + 1 + |kept|, |front|) ==
            front + (kept + (stale' + rest))
  {
    DeleteStep(front, x, kept, stale + rest);
    Assoc([LastOr(kept, x)], stale, rest);
  }

  lemma KeepValues<T>(front: seq<T>, x: T, kept: seq<T>, tail: seq<T>)
    ensures (front + [x]) + (kept + tail) == front + (([x] + kept) + tail)
  {
    Assoc(front, [x], kept + tail);
    Assoc([x], kept, tail);
  }

  /** The array in which everything after `x` has been pruned. */
  lemma BeforeStep<T>(front: seq<T>, x: T, kept: seq<T>, tail: seq<T>)
    ensures var before := (front + [x]) + (kept + tail);
            |front| + 1 + |kept| <= |before| && before[|front|] == x
  {
  }

  lemma PruneSuffix<T>(drop: T -> bool, all: seq<T>, i: nat)
    requires i < |all|
    ensures drop(all[i]) ==>
              && Keep(drop, all[i..]) == Keep(drop, all[i + 1..])
              && Stale(drop, all[i..]) == [LastOr(Keep(drop, all[i + 1..]), all[i])] + Stale(drop, all[i + 1..])
    ensures !drop(all[i]) ==>
              && Keep(drop, all[i..]) == [all[i]] + Keep(drop, all[i + 1..])
              && Stale(drop, all[i..]) == Stale(drop, all[i + 1..])
  {
    DropNext(all, i);
    PruneCons(drop, all[i], all[i + 1..]);
  }

  lemma StepValues<T>(all: seq<T>, rest: seq<T>, i: nat, before: seq<T>, kept: seq<T>, stale: seq<T>)
    requires i < |all| && before == all[..i + 1] + (kept + (stale + rest))
    ensures i + 1 + |kept| <= |before| && before[i] == all[i]
    ensures Shifted(before, i + 1 + |kept|, i) == all[..i] + (kept + (([LastOr(kept, all[i])] + stale) + rest))
    ensures before == all[..i] + (([all[i]] + kept) + (stale + rest))
  {
    TakeNext(all, i);
    BeforeStep(all[..i], all[i], kept, stale + rest);
    DropValues(all[..i], all[i], kept, stale, rest, [LastOr(kept, all[i])] + stale);
    KeepValues(all[..i], all[i], kept, stale + rest);
  }

  /** One step of the pruning loop: `before` is pruned from `i + 1` onward, `kept` and `stale` being what is kept
      and stale of that part. Deleting element `i`, or not, prunes it from `i` onward. */
  lemma PruneStep<T>(drop: T -> bool, all: seq<T>, rest: seq<T>, i: nat, before: seq<T>, kept: seq<T>, stale: seq<T>)
    requires i < |all| && kept == Keep(drop, all[i + 1..]) && stale == Stale(drop, all[i + 1..])
    requires before == all[..i + 1] + (kept + (stale + rest))
    ensures i + 1 + |kept| <= |before| && before[i] == all[i]
    ensures drop(all[i]) ==>
              && Keep(drop, all[i..]) == kept && Stale(drop, all[i..]) == [LastOr(kept, all[i])] + stale
              && Shifted(before, i + 1 + |kept|, i) == all[..i] + (kept + (([LastOr(kept, all[i])] + stale) + rest))
    ensures !drop(all[i]) ==>
              && Keep(drop, all[i..]) == [all[i]] + kept && Stale(drop, all[i..]) == stale
              && before == all[..i] + (([all[i]] + kept) + (stale + rest))
  {
    PruneSuffix(drop, all, i);
    StepValues(all, rest, i, before, kept, stale);
  }

  lemma {:induction false} KeepConcat<T>(drop: T -> bool, a: seq<T>, b: seq<T>)
    ensures Keep(drop, a + b) == Keep(drop, a) + Keep(drop, b)
  {
    if a == [] {
      assert a + b == b;
    } else {
      assert (a + b)[1..] == a[1..] + b;
      KeepConcat(drop, a[1..], b);
    }
  }

  lemma {:induction false} KeepMembers<T>(drop: T -> bool, s: seq<T>)
    ensures forall x :: x in Keep(drop, s) <==> x in s && !drop(x)
  {
    if s == [] {
    } else {
      KeepMembers(drop, s[1..]);
      assert s == [s[0]] + s[1..];
    }
  }

  lemma {:induction false} KeepIdentity<T>(drop: T -> bool, s: seq<T>)
    requires forall x | x in s :: !drop(x)
    ensures Keep(drop, s) == s
  {
    if s == [] {
    } else {
      KeepIdentity(drop, s[1..]);
    }
  }

  lemma {:induction false} NothingKept<T>(drop: T -> bool, s: seq<T>)
    requires forall x | x in s :: drop(x)
    ensures Keep(drop, s) == [] && Stale(drop, s) == s
  {
    if s == [] {
    } else {
      NothingKept(drop, s[1..]);
    }
  }

  function Repeat<T>(x: T, n: nat): seq<T> {
    if n == 0 then [] else [x] + Repeat(x, n - 1)
  }

  lemma LastOrConcat<T>(k: seq<T>, kb: seq<T>, x: T)
    requires kb != []
    ensures LastOr(k + kb, x) == kb[|kb| - 1]
  {
  }

  /** One more element in front of what is kept in the end. */
  lemma StaleCons<T>(drop: T -> bool, x: T, a: seq<T>, b: seq<T>)
    requires Keep(drop, b) != []
    ensures var last := Keep(drop, b)[|Keep(drop, b)| - 1];
            Stale(drop, [x] + (a + b)) == if drop(x) then [last] + Stale(drop, a + b) else Stale(drop, a + b)
  {
    PruneCons(drop, x, a + b);
    KeepConcat(drop, a, b);
    LastOrConcat(Keep(drop, a), Keep(drop, b), x);
  }

  lemma RepeatCons<T>(x: T, n: nat, s: seq<T>)
    ensures [x] + (Repeat(x, n) + s) == Repeat(x, n + 1) + s
  {
    Assoc([x], Repeat(x, n), s);
  }

  /** `a` is followed by something of which `last` is the last element kept: it is repeated for each of the
      `n` elements of `a` that are dropped. */
  ghost predicate Repeats<T>(drop: T -> bool, a: seq<T>, b: seq<T>, last: T, n: nat) {
    && |Keep(drop, a)| + n == |a|
    && Stale(drop, a + b) == Repeat(last, n) + Stale(drop, b)
  }

  lemma KeptCount<T>(drop: T -> bool, x: T, a: seq<T>)
    ensures |[x] + a| == |a| + 1 && |Keep(drop, [x] + a)| == |Keep(drop, a)| + if drop(x) then 0 else 1
  {
    PruneCons(drop, x, a);
  }

  lemma RepeatsCons<T>(drop: T -> bool, x: T, a: seq<T>, b: seq<T>, last: T, n: nat)
    requires Keep(drop, b) != [] && last == Keep(drop, b)[|Keep(drop, b)| - 1] && Repeats(drop, a, b, last, n)
    ensures Repeats(drop, [x] + a, b, last, if drop(x) then n + 1 else n)
  {
    KeptCount(drop, x, a);
    StaleCons(drop, x, a, b);
    Assoc([x], a, b);
    RepeatCons(last, n, Stale(drop, b));
  }

  lemma {:induction false} StaleConcat<T>(drop: T -> bool, a: seq<T>, b: seq<T>) returns (n: nat)
    requires Keep(drop, b) != []
    ensures Repeats(drop, a, b, Keep(drop, b)[|Keep(drop, b)| - 1], n)
  {
    if a == [] {
      n := 0;
      EmptyFront(b);
      EmptyFront(Stale(drop, b));
    } else {
      n := StaleConcat(drop, a[1..], b);
      RepeatsCons(drop, a[0], a[1..], b, Keep(drop, b)[|Keep(drop, b)| - 1], n);
      n := if drop(a[0]) then n + 1 else n;
      DropNext(a, 0);
      assert a[0..] == a;
    }
  }

  /** The number of droppable elements after the last kept one. */
  function Trailing<T>(drop: T -> bool, s: seq<T>): (n: nat)
    ensures n <= |s|
  {
    if s == [] || !drop(s[|s| - 1]) then 0 else 1 + Trailing(drop, s[..|s| - 1])
  }

  lemma {:induction false} TrailingDropped<T>(drop: T -> bool, s: seq<T>)
    ensures var t := Trailing(drop, s);
            && (forall x | x in s[|s| - t..] :: drop(x))
            && (t < |s| ==> !drop(s[|s| - t - 1]))
  {
    if s != [] && drop(s[|s| - 1]) {
      var front, t := s[..|s| - 1], Trailing(drop, s);
      TrailingDropped(drop, front);
      assert s[|s| - t..] == front[|front| - (t - 1)..] + [s[|s| - 1]];
    }
  }

  lemma StaleSplit<T>(drop: T -> bool, front: seq<T>, last: T, tail: seq<T>)
    requires !drop(last) && forall x | x in tail :: drop(x)
    ensures var s := front + ([last] + tail);
            && |Keep(drop, front)| <= |front|
            && Keep(drop, s) == Keep(drop, front) + [last]
            && Stale(drop, s) == Repeat(last, |front| - |Keep(drop, front)|) + tail
  {
    var rest := [last] + tail;
    assert rest[1..] == tail;
    NothingKept(drop, tail);
    assert Keep(drop, rest) == [last] && Stale(drop, rest) == tail;
    KeepConcat(drop, front, rest);
    var n := StaleConcat(drop, front, rest);
  }

  /** The tail of the caller's slice after pruning: the last kept element once for every element deleted
      before it, then the elements deleted after it, untouched; everything if nothing is kept. */
  lemma StaleClosedForm<T>(drop: T -> bool, s: seq<T>)
    ensures Keep(drop, s) == [] <==> Trailing(drop, s) == |s|
    ensures Keep(drop, s) == [] ==> Stale(drop, s) == s
    ensures Keep(drop, s) != [] ==>
              var kept, tail := Keep(drop, s), s[|s| - Trailing(drop, s)..];
              && |kept| + |tail| <= |s|
              && Stale(drop, s) == Repeat(kept[|kept| - 1], |s| - |kept| - |tail|) + tail
  {
    var t := Trailing(drop, s);
    TrailingDropped(drop, s);
    if t == |s| {
      assert s[0..] == s;
      NothingKept(drop, s);
    } else {
      var front, last, tail := s[..|s| - t - 1], s[|s| - t - 1], s[|s| - t..];
      assert s == front + ([last] + tail);
      StaleSplit(drop, front, last, tail);
      var k := Keep(drop, front);
      assert (k + [last])[|k|] == last && |k + [last]| == |k| + 1;
      assert |front| - |k| == |s| - |k + [last]| - |tail|;
    }
  }

  /** Nothing is kept behind an element that is dropped. */
  predicate DroppedLast<T>(drop: T -> bool, s: seq<T>) {
    forall i, j | 0 <= i < j < |s| && drop(s[i]) :: drop(s[j])
  }

  lemma NothingKeptExactlyWhen<T>(drop: T -> bool, s: seq<T>)
    ensures Keep(drop, s) == [] <==> forall x | x in s :: drop(x)
  {
    KeepMembers(drop, s);
    if Keep(drop, s) != [] {
      assert Keep(drop, s)[0] in Keep(drop, s);
    }
  }

  lemma AllDropped<T>(drop: T -> bool, s: seq<T>)
    requires Keep(drop, s) == []
    ensures Stale(drop, s) == s && DroppedLast(drop, s)
  {
    NothingKeptExactlyWhen(drop, s);
    NothingKept(drop, s);
  }

  /** A dropped head is overwritten if anything is kept. */
  lemma HeadOverwritten<T>(drop: T -> bool, s: seq<T>, tail: seq<T>)
    requires s != [] && drop(s[0]) && Keep(drop, s) != []
    ensures Keep(drop, s) + tail != s
  {
    var first := Keep(drop, s)[0];
    KeepMembers(drop, s);
    assert first in Keep(drop, s);
    assert (Keep(drop, s) + tail)[0] == first;
  }

  lemma HeadNotLast<T>(drop: T -> bool, s: seq<T>)
    requires s != [] && drop(s[0]) && Keep(drop, s) != []
    ensures !DroppedLast(drop, s)
  {
    NothingKeptExactlyWhen(drop, s);
    var x :| x in s && !drop(x);
    var j :| 0 <= j < |s| && s[j] == x;
  }

  lemma DroppedLastCons<T>(drop: T -> bool, x: T, u: seq<T>)
    requires !drop(x)
    ensures DroppedLast(drop, [x] + u) <==> DroppedLast(drop, u)
  {
    var s := [x] + u;
    if DroppedLast(drop, u) {
      forall i, j | 0 <= i < j < |s| && drop(s[i]) ensures drop(s[j]) {
        assert drop(u[i - 1]) && u[j - 1] == s[j];
      }
    } else {
      var i, j :| 0 <= i < j < |u| && drop(u[i]) && !drop(u[j]);
      assert drop(s[i + 1]) && !drop(s[j + 1]);
    }
  }

  lemma HeadKept<T>(drop: T -> bool, x: T, u: seq<T>)
    requires !drop(x)
    ensures Keep(drop, [x] + u) + Stale(drop, [x] + u) == [x] + (Keep(drop, u) + Stale(drop, u))
  {
    PruneCons(drop, x, u);
    Assoc([x], Keep(drop, u), Stale(drop, u));
  }

  lemma SameTail<T>(x: T, a: seq<T>, b: seq<T>)
    ensures [x] + a == [x] + b <==> a == b
  {
    assert ([x] + a)[1..] == a && ([x] + b)[1..] == b;
  }

  /** Pruning leaves the caller's slice as it was exactly when all that it drops is at the end. */
  lemma {:induction false} UntouchedExactlyWhen<T>(drop: T -> bool, s: seq<T>)
    ensures Keep(drop, s) + Stale(drop, s) == s <==> DroppedLast(drop, s)
  {
    if Keep(drop, s) == [] {
      AllDropped(drop, s);
      EmptyFront(s);
    } else if drop(s[0]) {
      HeadOverwritten(drop, s, Stale(drop, s));
      HeadNotLast(drop, s);
    } else {
      var x, u := s[0], s[1..];
      assert s == [x] + u;
      UntouchedExactlyWhen(drop, u);
      DroppedLastCons(drop, x, u);
      HeadKept(drop, x, u);
      SameTail(x, Keep(drop, u) + Stale(drop, u), u);
    }
  }
}

module FlagMerge {
  import opened Basics

  /** How to read an argument: the name of its flag, empty if it is none, and which flags may repeat. */
  datatype Syntax<!A> = Syntax(flagOf: A -> string, repeatable: string -> bool)

  function NextKeys(keys: seq<string>, flag: string): seq<string> {
    if flag == "" || flag in keys then keys else keys + [flag]
  }

  /** The flags of `args` in the order of their first appearance. */
  function Order<A>(syn: Syntax<A>, args: seq<A>): seq<string> {
    if args == [] then []
    else NextKeys(Order(syn, args[..|args| - 1]), syn.flagOf(args[|args| - 1]))
  }

  /** The arguments of the given flag, in order. */
  function Instances<A>(syn: Syntax<A>, flag: string, args: seq<A>): seq<A> {
    if args == [] then []
    else
      var last := args[|args| - 1];
      Instances(syn, flag, args[..|args| - 1]) + (if syn.flagOf(last) == flag then [last] else [])
  }

  function Choice<A>(syn: Syntax<A>, flag: string, all: seq<A>): seq<A> {
    if syn.repeatable(flag) || all == [] then all else [all[|all| - 1]]
  }

  /** Of a repeatable flag every instance, of any other the last one. */
  function Chosen<A>(syn: Syntax<A>, flag: string, args: seq<A>): seq<A> {
    Choice(syn, flag, Instances(syn, flag, args))
  }

  function Emit<A>(syn: Syntax<A>, order: seq<string>, args: seq<A>): seq<A> {
    if order == [] then []
    else Emit(syn, order[..|order| - 1], args) + Chosen(syn, order[|order| - 1], args)
  }

  /** Each flag once, at its first position, with the instances chosen. */
  function Normalised<A>(syn: Syntax<A>, args: seq<A>): seq<A> {
    Emit(syn, Order(syn, args), args)
  }

  // ---------------------------------------------------------------- reading one more argument

  lemma OrderSnoc<A>(syn: Syntax<A>, args: seq<A>, arg: A)
    ensures Order(syn, args + [arg]) == NextKeys(Order(syn, args), syn.flagOf(arg))
  {
    assert (args + [arg])[..|args|] == args;
  }

  /** Reading one more argument changes what is chosen for its own flag only. */
  lemma ChosenSnoc<A>(syn: Syntax<A>, args: seq<A>, arg: A, f: string)
    ensures Chosen(syn, f, args + [arg]) ==
            if f != syn.flagOf(arg) then Chosen(syn, f, args)
            else if syn.repeatable(f) then Chosen(syn, f, args) + [arg]
            else [arg]
  {
    assert (args + [arg])[..|args|] == args;
  }

  lemma DistinctSnoc(keys: seq<string>, k: string)
    requires Distinct(keys) && k !in keys
    ensures Distinct(keys + [k])
  {
  }

  lemma DistinctFront(keys: seq<string>)
    requires keys != [] && Distinct(keys)
    ensures Distinct(keys[..|keys| - 1]) && keys[|keys| - 1] !in keys[..|keys| - 1]
  {
  }

  lemma DistinctNextKeys(keys: seq<string>, flag: string)
    requires Distinct(keys)
    ensures Distinct(NextKeys(keys, flag))
    ensures forall f :: f in NextKeys(keys, flag) <==> f in keys || (f == flag && f != "")
  {
    if NextKeys(keys, flag) != keys {
      DistinctSnoc(keys, flag);
    }
  }

  lemma {:induction false} OrderMembers<A>(syn: Syntax<A>, args: seq<A>)
    ensures forall f :: f in Order(syn, args) <==> f != "" && Instances(syn, f, args) != []
    ensures Distinct(Order(syn, args))
  {
    if args == [] {
    } else {
      var front, flag := args[..|args| - 1], syn.flagOf(args[|args| - 1]);
      OrderMembers(syn, front);
      DistinctNextKeys(Order(syn, front), flag);
      forall f ensures Instances(syn, f, args) != [] <==> Instances(syn, f, front) != [] || f == flag {}
    }
  }

  lemma NextKeysMembers(keys: seq<string>, flag: string)
    ensures forall f :: f in NextKeys(keys, flag) <==> f in keys || (f == flag && f != "")
  {
  }

  // ---------------------------------------------------------------- the parsing state

  /** The maps hold what is chosen for `f`. */
  ghost predicate Recorded<A>(syn: Syntax<A>, f: string, args: seq<A>, argMap: map<string, A>,
                              repeatableArgs: map<string, seq<A>>) {
    if syn.repeatable(f) then f in repeatableArgs && Chosen(syn, f, args) == repeatableArgs[f]
    else f in argMap && Chosen(syn, f, args) == [argMap[f]]
  }

  /** The maps and the key list after the flag arguments `args` have been read. */
  ghost predicate Parsed<A>(syn: Syntax<A>, args: seq<A>, argMap: map<string, A>, repeatableArgs: map<string, seq<A>>,
                            orderKeys: seq<string>) {
    && orderKeys == Order(syn, args)
    && (forall f :: f in argMap <==> f in orderKeys && !syn.repeatable(f))
    && (forall f :: f in repeatableArgs <==> f in orderKeys && syn.repeatable(f))
    && (forall f | f in orderKeys :: Recorded(syn, f, args, argMap, repeatableArgs))
  }

  lemma ParseNonFlag<A>(syn: Syntax<A>, args: seq<A>, arg: A, argMap: map<string, A>,
                        repeatableArgs: map<string, seq<A>>, orderKeys: seq<string>)
    requires Parsed(syn, args, argMap, repeatableArgs, orderKeys) && syn.flagOf(arg) == ""
    ensures Parsed(syn, args + [arg], argMap, repeatableArgs, orderKeys)
  {
    OrderSnoc(syn, args, arg);
    OrderMembers(syn, args);
    forall f | f in orderKeys ensures Recorded(syn, f, args + [arg], argMap, repeatableArgs) {
      ChosenSnoc(syn, args, arg, f);
      assert Recorded(syn, f, args, argMap, repeatableArgs);
    }
  }

  /** The repeatable arguments after one more. */
  function Collect<A>(repeatableArgs: map<string, seq<A>>, flag: string, arg: A): map<string, seq<A>> {
    repeatableArgs[flag := (if flag in repeatableArgs then repeatableArgs[flag] else []) + [arg]]
  }

  lemma RecordedRepeatable<A>(syn: Syntax<A>, f: string, args: seq<A>, arg: A, argMap: map<string, A>,
                              repeatableArgs: map<string, seq<A>>)
    requires syn.repeatable(syn.flagOf(arg))
    requires Recorded(syn, f, args, argMap, repeatableArgs)
             || (f == syn.flagOf(arg) && Instances(syn, f, args) == [] && f !in repeatableArgs)
    ensures Recorded(syn, f, args + [arg], argMap, Collect(repeatableArgs, syn.flagOf(arg), arg))
  {
    ChosenSnoc(syn, args, arg, f);
  }

  lemma RecordedSingle<A>(syn: Syntax<A>, f: string, args: seq<A>, arg: A, argMap: map<string, A>,
                          repeatableArgs: map<string, seq<A>>)
    requires !syn.repeatable(syn.flagOf(arg))
    requires Recorded(syn, f, args, argMap, repeatableArgs) || f == syn.flagOf(arg)
    ensures Recorded(syn, f, args + [arg], argMap[syn.flagOf(arg) := arg], repeatableArgs)
  {
    ChosenSnoc(syn, args, arg, f);
  }

  lemma ParseRepeatable<A>(syn: Syntax<A>, args: seq<A>, arg: A, argMap: map<string, A>,
                           repeatableArgs: map<string, seq<A>>, orderKeys: seq<string>)
    requires Parsed(syn, args, argMap, repeatableArgs, orderKeys)
    requires syn.flagOf(arg) != "" && syn.repeatable(syn.flagOf(arg))
    ensures Parsed(syn, args + [arg], argMap, Collect(repeatableArgs, syn.flagOf(arg), arg),
                   NextKeys(orderKeys, syn.flagOf(arg)))
  {
    var flag := syn.flagOf(arg);
    OrderSnoc(syn, args, arg);
    OrderMembers(syn, args);
    DistinctNextKeys(orderKeys, flag);
    forall f | f in NextKeys(orderKeys, flag)
      ensures Recorded(syn, f, args + [arg], argMap, Collect(repeatableArgs, flag, arg))
    {
      RecordedRepeatable(syn, f, args, arg, argMap, repeatableArgs);
    }
  }

  lemma ParseSingle<A>(syn: Syntax<A>, args: seq<A>, arg: A, argMap: map<string, A>,
                       repeatableArgs: map<string, seq<A>>, orderKeys: seq<string>)
    requires Parsed(syn, args, argMap, repeatableArgs, orderKeys)
    requires syn.flagOf(arg) != "" && !syn.repeatable(syn.flagOf(arg))
    ensures Parsed(syn, args + [arg], argMap[syn.flagOf(arg) := arg], repeatableArgs,
                   NextKeys(orderKeys, syn.flagOf(arg)))
  {
    var flag := syn.flagOf(arg);
    OrderSnoc(syn, args, arg);
    NextKeysMembers(orderKeys, flag);
    forall f | f in NextKeys(orderKeys, flag)
      ensures Recorded(syn, f, args + [arg], argMap[flag := arg], repeatableArgs)
    {
      RecordedSingle(syn, f, args, arg, argMap, repeatableArgs);
    }
  }

  /** The first loop's test for a new key, one value collected, agrees with the key being absent. */
  lemma RepeatableNonEmpty<A>(syn: Syntax<A>, args: seq<A>, argMap: map<string, A>,
                              repeatableArgs: map<string, seq<A>>, orderKeys: seq<string>, flag: string)
    requires Parsed(syn, args, argMap, repeatableArgs, orderKeys)
    ensures flag in repeatableArgs ==> repeatableArgs[flag] != []
  {
    OrderMembers(syn, args);
    assert flag in orderKeys ==> Recorded(syn, flag, args, argMap, repeatableArgs);
  }

  /** One iteration of the first loop, over an existing argument. */
  method ReadExisting<A>(syn: Syntax<A>, ghost args: seq<A>, arg: A,
                         argMap: map<string, A>, repeatableArgs: map<string, seq<A>>, orderKeys: seq<string>)
    returns (argMap': map<string, A>, repeatableArgs': map<string, seq<A>>, orderKeys': seq<string>)
    requires Parsed(syn, args, argMap, repeatableArgs, orderKeys)
    ensures Parsed(syn, args + [arg], argMap', repeatableArgs', orderKeys')
  {
    argMap', repeatableArgs', orderKeys' := argMap, repeatableArgs, orderKeys;
    var flag := syn.flagOf(arg);
    if flag != "" {
      if syn.repeatable(flag) {
        ParseRepeatable(syn, args, arg, argMap, repeatableArgs, orderKeys);
        RepeatableNonEmpty(syn, args, argMap, repeatableArgs, orderKeys, flag);
        repeatableArgs' := Collect(repeatableArgs, flag, arg);
        if |repeatableArgs'[flag]| == 1 {
          orderKeys' := orderKeys + [flag];
        }
      } else {
        ParseSingle(syn, args, arg, argMap, repeatableArgs, orderKeys);
        if flag !in argMap {
          orderKeys' := orderKeys + [flag];
        }
        argMap' := argMap[flag := arg];
      }
    } else {
      ParseNonFlag(syn, args, arg, argMap, repeatableArgs, orderKeys);
    }
  }

  /** One iteration of the second loop, over an additional argument. */
  method ReadAdditional<A>(syn: Syntax<A>, ghost args: seq<A>, arg: A,
                           argMap: map<string, A>, repeatableArgs: map<string, seq<A>>, orderKeys: seq<string>)
    returns (argMap': map<string, A>, repeatableArgs': map<string, seq<A>>, orderKeys': seq<string>)
    requires Parsed(syn, args, argMap, repeatableArgs, orderKeys)
    ensures Parsed(syn, args + [arg], argMap', repeatableArgs', orderKeys')
  {
    argMap', repeatableArgs', orderKeys' := argMap, repeatableArgs, orderKeys;
    var flag := syn.flagOf(arg);
    if flag != "" {
      if syn.repeatable(flag) {
        ParseRepeatable(syn, args, arg, argMap, repeatableArgs, orderKeys);
        if flag !in repeatableArgs {
          orderKeys' := orderKeys + [flag];
        }
        repeatableArgs' := Collect(repeatableArgs, flag, arg);
      } else {
        ParseSingle(syn, args, arg, argMap, repeatableArgs, orderKeys);
        if flag !in argMap {
          orderKeys' := orderKeys + [flag];
        }
        argMap' := argMap[flag := arg];
      }
    } else {
      ParseNonFlag(syn, args, arg, argMap, repeatableArgs, orderKeys);
    }
  }

  lemma EmitSnoc<A>(syn: Syntax<A>, order: seq<string>, args: seq<A>, i: nat)
    requires i < |order|
    ensures Emit(syn, order[..i + 1], args) == Emit(syn, order[..i], args) + Chosen(syn, order[i], args)
  {
    assert order[..i + 1][..i] == order[..i];
  }

  /** The last loop: the arguments recorded for each key, in the order of the keys. */
  method Rebuild<A>(syn: Syntax<A>, ghost args: seq<A>, head: seq<A>,
                    argMap: map<string, A>, repeatableArgs: map<string, seq<A>>, orderKeys: seq<string>)
    returns (result: seq<A>)
    requires Parsed(syn, args, argMap, repeatableArgs, orderKeys)
    ensures result == head + Normalised(syn, args)
  {
    result := head;
    for i := 0 to |orderKeys|
      invariant result == head + Emit(syn, orderKeys[..i], args)
    {
      var flag := orderKeys[i];
      EmitSnoc(syn, orderKeys, args, i);
      Assoc(head, Emit(syn, orderKeys[..i], args), Chosen(syn, flag, args));
      assert flag in orderKeys && Recorded(syn, flag, args, argMap, repeatableArgs);
      if syn.repeatable(flag) {
        result := result + repeatableArgs[flag];
      } else {
        result := result + [argMap[flag]];
      }
    }
    assert orderKeys[..|orderKeys|] == orderKeys;
  }

  lemma ConcatPrefix<T>(a: seq<T>, b: seq<T>, i: nat)
    requires i < |b|
    ensures a + b[..i + 1] == (a + b[..i]) + [b[i]]
  {
    assert b[..i + 1] == b[..i] + [b[i]];
  }

  /** The loop over the existing arguments. */
  method ReadAllExisting<A>(syn: Syntax<A>, flagArgs: seq<A>)
    returns (argMap: map<string, A>, repeatableArgs: map<string, seq<A>>, orderKeys: seq<string>)
    ensures Parsed(syn, flagArgs, argMap, repeatableArgs, orderKeys)
  {
    argMap, repeatableArgs, orderKeys := map[], map[], [];
    for i := 0 to |flagArgs|
      invariant Parsed(syn, flagArgs[..i], argMap, repeatableArgs, orderKeys)
    {
      TakeNext(flagArgs, i);
      argMap, repeatableArgs, orderKeys :=
        ReadExisting(syn, flagArgs[..i], flagArgs[i], argMap, repeatableArgs, orderKeys);
    }
    assert flagArgs[..|flagArgs|] == flagArgs;
  }

  /** The loop over the additional arguments. */
  method ReadAllAdditional<A>(syn: Syntax<A>, ghost flagArgs: seq<A>, additionalArgs: seq<A>,
                              argMap0: map<string, A>, repeatableArgs0: map<string, seq<A>>, orderKeys0: seq<string>)
    returns (argMap: map<string, A>, repeatableArgs: map<string, seq<A>>, orderKeys: seq<string>)
    requires Parsed(syn, flagArgs, argMap0, repeatableArgs0, orderKeys0)
    ensures Parsed(syn, flagArgs + additionalArgs, argMap, repeatableArgs, orderKeys)
  {
    argMap, repeatableArgs, orderKeys := argMap0, repeatableArgs0, orderKeys0;
    assert flagArgs + additionalArgs[..0] == flagArgs;
    for i := 0 to |additionalArgs|
      invariant Parsed(syn, flagArgs + additionalArgs[..i], argMap, repeatableArgs, orderKeys)
    {
      ConcatPrefix(flagArgs, additionalArgs, i);
      argMap, repeatableArgs, orderKeys :=
        ReadAdditional(syn, flagArgs + additionalArgs[..i], additionalArgs[i], argMap, repeatableArgs, orderKeys);
    }
    assert additionalArgs[..|additionalArgs|] == additionalArgs;
  }

  /** Both parsing loops and the rebuilding loop. */
  method MergeFlags<A>(syn: Syntax<A>, head: seq<A>, flagArgs: seq<A>, additionalArgs: seq<A>) returns (result: seq<A>)
    ensures result == head + Normalised(syn, flagArgs + additionalArgs)
  {
    var argMap, repeatableArgs, orderKeys := ReadAllExisting(syn, flagArgs);
    argMap, repeatableArgs, orderKeys :=
      ReadAllAdditional(syn, flagArgs, additionalArgs, argMap, repeatableArgs, orderKeys);
    result := Rebuild(syn, flagArgs + additionalArgs, head, argMap, repeatableArgs, orderKeys);
  }

  // ---------------------------------------------------------------- the declarative reading

  lemma {:induction false} InstancesMembers<A>(syn: Syntax<A>, flag: string, args: seq<A>)
    ensures forall x :: x in Instances(syn, flag, args) <==> x in args && syn.flagOf(x) == flag
  {
    if args == [] {
    } else {
      InstancesMembers(syn, flag, args[..|args| - 1]);
      assert args == args[..|args| - 1] + [args[|args| - 1]];
    }
  }

  lemma InstanceAt<A>(syn: Syntax<A>, flag: string, args: seq<A>, i: nat)
    requires i < |Instances(syn, flag, args)|
    ensures Instances(syn, flag, args)[i] in args && syn.flagOf(Instances(syn, flag, args)[i]) == flag
  {
    InstancesMembers(syn, flag, args);
    var x := Instances(syn, flag, args)[i];
    assert x in Instances(syn, flag, args);
  }

  lemma ChosenUniform<A>(syn: Syntax<A>, flag: string, args: seq<A>)
    ensures forall x | x in Chosen(syn, flag, args) :: x in args && syn.flagOf(x) == flag
    ensures Chosen(syn, flag, args) == [] <==> Instances(syn, flag, args) == []
  {
    var all := Instances(syn, flag, args);
    forall i | 0 <= i < |all| ensures all[i] in args && syn.flagOf(all[i]) == flag {
      InstanceAt(syn, flag, args, i);
    }
  }

  lemma MemberSnoc(order: seq<string>, flag: string)
    requires order != []
    ensures flag in order <==> flag in order[..|order| - 1] || flag == order[|order| - 1]
  {
    assert order == order[..|order| - 1] + [order[|order| - 1]];
  }

  lemma {:induction false} EmitMembers<A>(syn: Syntax<A>, order: seq<string>, args: seq<A>)
    ensures forall x | x in Emit(syn, order, args) :: x in args && syn.flagOf(x) in order
  {
    if order == [] {
    } else {
      var last := order[|order| - 1];
      EmitMembers(syn, order[..|order| - 1], args);
      ChosenUniform(syn, last, args);
      MemberSnoc(order, last);
      forall f | f in order[..|order| - 1] ensures f in order {
        MemberSnoc(order, f);
      }
    }
  }

  /** `i` is the position of the first argument of its flag. */
  ghost predicate Opens<A>(syn: Syntax<A>, args: seq<A>, i: nat)
    requires i < |args|
  {
    syn.flagOf(args[i]) != "" && forall j | 0 <= j < i :: syn.flagOf(args[j]) != syn.flagOf(args[i])
  }

  /** The argument at `i` is the first one of the flag `key`. */
  ghost predicate OpensKey<A>(syn: Syntax<A>, args: seq<A>, i: nat, key: string) {
    i < |args| && Opens(syn, args, i) && syn.flagOf(args[i]) == key
  }

  lemma OpensPrefix<A>(syn: Syntax<A>, args: seq<A>, i: nat)
    requires i < |args| - 1
    ensures Opens(syn, args, i) == Opens(syn, args[..|args| - 1], i)
  {
  }

  /** The last argument opens its flag exactly when the flag is new. */
  lemma NewKeyOpens<A>(syn: Syntax<A>, args: seq<A>)
    requires args != []
    ensures var n := |args| - 1;
            Opens(syn, args, n) <==> syn.flagOf(args[n]) != "" && syn.flagOf(args[n]) !in Order(syn, args[..n])
  {
    var n := |args| - 1;
    var front, flag := args[..n], syn.flagOf(args[n]);
    OrderMembers(syn, front);
    InstancesMembers(syn, flag, front);
    if flag in Order(syn, front) {
      var all := Instances(syn, flag, front);
      InstanceAt(syn, flag, front, 0);
      var j :| 0 <= j < n && front[j] == all[0];
      assert syn.flagOf(args[j]) == flag;
    } else if flag != "" {
      forall j | 0 <= j < n ensures syn.flagOf(args[j]) != flag {
        assert front[j] in front && front[j] !in Instances(syn, flag, front);
      }
    }
  }

  /** The key list is the list of flags sorted by first appearance: the `k`-th key opens at `positions[k]`. */
  lemma {:induction false} OrderIsFirstAppearance<A>(syn: Syntax<A>, args: seq<A>) returns (positions: seq<nat>)
    ensures |positions| == |Order(syn, args)|
    ensures forall k | 0 <= k < |positions| :: OpensKey(syn, args, positions[k], Order(syn, args)[k])
    ensures forall k, l | 0 <= k < l < |positions| :: positions[k] < positions[l]
    ensures forall i | 0 <= i < |args| && Opens(syn, args, i) :: i in positions
  {
    if args == [] {
      positions := [];
    } else {
      var n := |args| - 1;
      var front, flag := args[..n], syn.flagOf(args[n]);
      positions := OrderIsFirstAppearance(syn, front);
      forall i | 0 <= i < n ensures Opens(syn, args, i) == Opens(syn, front, i) {
        OpensPrefix(syn, args, i);
      }
      NewKeyOpens(syn, args);
      if flag != "" && flag !in Order(syn, front) {
        positions := positions + [n];
      }
    }
  }

  lemma {:induction false} InstancesConcat<A>(syn: Syntax<A>, flag: string, a: seq<A>, b: seq<A>)
    ensures Instances(syn, flag, a + b) == Instances(syn, flag, a) + Instances(syn, flag, b)
  {
    if b == [] {
      assert a + b == a;
    } else {
      assert (a + b)[..|a + b| - 1] == a + b[..|b| - 1];
      InstancesConcat(syn, flag, a, b[..|b| - 1]);
    }
  }

  lemma {:induction false} InstancesUniform<A>(syn: Syntax<A>, flag: string, other: string, args: seq<A>)
    requires forall x | x in args :: syn.flagOf(x) == other
    ensures Instances(syn, flag, args) == if flag == other then args else []
  {
    if args == [] {
    } else {
      InstancesUniform(syn, flag, other, args[..|args| - 1]);
      assert args == args[..|args| - 1] + [args[|args| - 1]];
    }
  }

  lemma {:induction false} EmitInstances<A>(syn: Syntax<A>, order: seq<string>, args: seq<A>, flag: string)
    requires Distinct(order)
    ensures Instances(syn, flag, Emit(syn, order, args)) == if flag in order then Chosen(syn, flag, args) else []
  {
    if order == [] {
    } else {
      var front, last := order[..|order| - 1], order[|order| - 1];
      var block := Chosen(syn, last, args);
      DistinctFront(order);
      EmitInstances(syn, front, args, flag);
      ChosenUniform(syn, last, args);
      InstancesUniform(syn, flag, last, block);
      InstancesConcat(syn, flag, Emit(syn, front, args), block);
      MemberSnoc(order, flag);
    }
  }

  lemma {:induction false} OrderUniform<A>(syn: Syntax<A>, a: seq<A>, b: seq<A>, flag: string)
    requires flag != "" && flag !in Order(syn, a) && b != []
    requires forall x | x in b :: syn.flagOf(x) == flag
    ensures Order(syn, a + b) == Order(syn, a) + [flag]
  {
    var front := b[..|b| - 1];
    assert (a + b)[..|a + b| - 1] == a + front;
    if front == [] {
      assert a + front == a;
    } else {
      OrderUniform(syn, a, front, flag);
    }
  }

  /** Every key is a flag with an argument. */
  predicate Backed<A>(syn: Syntax<A>, order: seq<string>, args: seq<A>) {
    order == []
    || (order[|order| - 1] != "" && Instances(syn, order[|order| - 1], args) != []
         && Backed(syn, order[..|order| - 1], args))
  }

  lemma {:induction false} AllBacked<A>(syn: Syntax<A>, order: seq<string>, args: seq<A>)
    requires forall f | f in order :: f != "" && Instances(syn, f, args) != []
    ensures Backed(syn, order, args)
  {
    if order == [] {
    } else {
      var front, last := order[..|order| - 1], order[|order| - 1];
      assert order == front + [last] && last in order;
      forall f | f in front ensures f != "" && Instances(syn, f, args) != [] {
        assert f in order;
      }
      AllBacked(syn, front, args);
    }
  }

  lemma EmitLast<A>(syn: Syntax<A>, front: seq<string>, last: string, args: seq<A>)
    requires last != "" && last !in front && Instances(syn, last, args) != []
    requires Order(syn, Emit(syn, front, args)) == front
    ensures Order(syn, Emit(syn, front, args) + Chosen(syn, last, args)) == front + [last]
  {
    ChosenUniform(syn, last, args);
    OrderUniform(syn, Emit(syn, front, args), Chosen(syn, last, args), last);
  }

  /** The keys without the last one. */
  lemma SplitKeys<A>(syn: Syntax<A>, order: seq<string>, args: seq<A>) returns (front: seq<string>, last: string)
    requires order != [] && Distinct(order) && Backed(syn, order, args)
    ensures |front| < |order| && order == front + [last] && Distinct(front) && Backed(syn, front, args)
    ensures last != "" && last !in front && Instances(syn, last, args) != []
    ensures Emit(syn, order, args) == Emit(syn, front, args) + Chosen(syn, last, args)
  {
    front, last := order[..|order| - 1], order[|order| - 1];
    DistinctFront(order);
  }

  lemma {:induction false} EmitOrder<A>(syn: Syntax<A>, order: seq<string>, args: seq<A>)
    requires Distinct(order) && Backed(syn, order, args)
    ensures Order(syn, Emit(syn, order, args)) == order
    decreases |order|
  {
    if order == [] {
    } else {
      var front, last := SplitKeys(syn, order, args);
      EmitOrder(syn, front, args);
      EmitLast(syn, front, last, args);
    }
  }

  /** Normalising keeps the flags and their order, and of each flag the chosen instances; it drops what is no flag. */
  lemma NormalisedMeaning<A>(syn: Syntax<A>, args: seq<A>)
    ensures Order(syn, Normalised(syn, args)) == Order(syn, args)
    ensures forall flag | flag != "" :: Instances(syn, flag, Normalised(syn, args)) == Chosen(syn, flag, args)
    ensures forall x | x in Normalised(syn, args) :: x in args && syn.flagOf(x) != ""
  {
    OrderMembers(syn, args);
    AllBacked(syn, Order(syn, args), args);
    EmitOrder(syn, Order(syn, args), args);
    forall flag | flag != "" ensures Instances(syn, flag, Normalised(syn, args)) == Chosen(syn, flag, args) {
      EmitInstances(syn, Order(syn, args), args, flag);
      ChosenUniform(syn, flag, args);
    }
    EmitMembers(syn, Order(syn, args), args);
  }

  // ---------------------------------------------------------------- composition

  lemma {:induction false} OrderCongruence<A>(syn: Syntax<A>, a: seq<A>, a': seq<A>, b: seq<A>)
    requires Order(syn, a) == Order(syn, a')
    ensures Order(syn, a + b) == Order(syn, a' + b)
  {
    if b == [] {
      assert a + b == a && a' + b == a';
    } else {
      var front := b[..|b| - 1];
      assert (a + b)[..|a + b| - 1] == a + front && (a' + b)[..|a' + b| - 1] == a' + front;
      OrderCongruence(syn, a, a', front);
    }
  }

  /** A second choice after more instances arrive does not see that the first choice was made. */
  lemma ChoiceAppend<A>(syn: Syntax<A>, flag: string, a: seq<A>, b: seq<A>)
    ensures Choice(syn, flag, Choice(syn, flag, a) + b) == Choice(syn, flag, a + b)
  {
  }

  lemma {:induction false} EmitCongruence<A>(syn: Syntax<A>, order: seq<string>, a: seq<A>, a': seq<A>)
    requires forall f | f in order :: Chosen(syn, f, a) == Chosen(syn, f, a')
    ensures Emit(syn, order, a) == Emit(syn, order, a')
  {
    if order == [] {
    } else {
      forall f | f in order[..|order| - 1] ensures f in order {
        MemberSnoc(order, f);
      }
      EmitCongruence(syn, order[..|order| - 1], a, a');
    }
  }

  /** Normalising early does not matter when more arguments follow. */
  lemma NormalisedAppend<A>(syn: Syntax<A>, a: seq<A>, b: seq<A>)
    ensures Normalised(syn, Normalised(syn, a) + b) == Normalised(syn, a + b)
  {
    var n := Normalised(syn, a);
    NormalisedMeaning(syn, a);
    OrderCongruence(syn, n, a, b);
    OrderMembers(syn, a + b);
    forall f | f in Order(syn, a + b) ensures Chosen(syn, f, n + b) == Chosen(syn, f, a + b) {
      InstancesConcat(syn, f, n, b);
      InstancesConcat(syn, f, a, b);
      ChoiceAppend(syn, f, Instances(syn, f, a), Instances(syn, f, b));
    }
    EmitCongruence(syn, Order(syn, a + b), n + b, a + b);
  }
}

module Args {
  import opened Basics
  import opened Pruning
  import opened FlagMerge

  // ---------------------------------------------------------------- strings

  /** An empty argument, or a flag with an empty value. */
  predicate IsEmptyArg(arg: string) {
    arg == "" || arg[|arg| - 1] == '='
  }

  /** The part of `s` before the first `=`, or all of it. */
  function BeforeEquals(s: string): string {
    if s == "" || s[0] == '=' then "" else [s[0]] + BeforeEquals(s[1..])
  }

  /** The flag name of an argument; the empty string when it is not a flag. */
  function ExtractFlag(arg: string): string {
    if HasPrefix(arg, "--") then BeforeEquals(arg) else ""
  }

  lemma FlagHasName(arg: string)
    ensures ExtractFlag(arg) != "" <==> HasPrefix(arg, "--")
  {
    if HasPrefix(arg, "--") {
      assert arg[0] == "--"[0];
    }
  }

  /** `rep` tells which flags may repeat; `ThanosArgs` supplies the operator's list. */
  function SyntaxOf(rep: string -> bool): Syntax<string> {
    Syntax(ExtractFlag, rep)
  }

  /** A flag name: it starts with two dashes and has no value. */
  predicate IsFlagName(name: string) {
    |name| >= 2 && name[0] == '-' && name[1] == '-' && '=' !in name
  }

  /** `arg` is the flag `name`, with a value or without. */
  ghost predicate Gives(name: string, arg: string) {
    arg == name || exists v: string :: arg == name + "=" + v
  }

  lemma {:induction false} BeforeEqualsMeaning(s: string)
    ensures BeforeEquals(s) <= s && '=' !in BeforeEquals(s)
    ensures BeforeEquals(s) == s || s[|BeforeEquals(s)|] == '='
  {
    if s == "" || s[0] == '=' {
    } else {
      BeforeEqualsMeaning(s[1..]);
      assert s == [s[0]] + s[1..];
    }
  }

  lemma {:induction false} BeforeFirstEquals(name: string, rest: string)
    requires '=' !in name && (rest == "" || rest[0] == '=')
    ensures BeforeEquals(name + rest) == name
  {
    if name == "" {
      assert name + rest == rest;
    } else {
      assert name == [name[0]] + name[1..] && (name + rest)[1..] == name[1..] + rest;
      BeforeFirstEquals(name[1..], rest);
    }
  }

  /** The flag of an argument is what stands in front of its value. */
  lemma ExtractFlagExactlyWhen(name: string, arg: string)
    requires IsFlagName(name)
    ensures ExtractFlag(arg) == name <==> Gives(name, arg)
  {
    var dashes := "--";
    if ExtractFlag(arg) == name {
      BeforeEqualsMeaning(arg);
      if arg != name {
        assert arg == name + "=" + arg[|name| + 1..];
      }
    }
    if Gives(name, arg) {
      assert name == dashes + name[2..];
      if arg == name {
        BeforeFirstEquals(name, "");
        assert name + "" == name;
      } else {
        var v: string :| arg == name + "=" + v;
        BeforeFirstEquals(name, "=" + v);
        assert arg == name + ("=" + v);
      }
    }
  }

  /** What pruning removes: the empty argument, and whatever ends in `=`, which is a flag with an empty value. */
  lemma IsEmptyArgExactlyWhen(arg: string)
    ensures IsEmptyArg(arg) <==> arg == "" || exists front: string :: arg == front + "="
  {
    if arg != "" && arg[|arg| - 1] == '=' {
      assert arg == arg[..|arg| - 1] + "=";
    }
  }

  // ---------------------------------------------------------------- pruning in place

  /** `append(args[:i], args[i+1:]...)` on the slice of length `n`. */
  method DeleteAt(args: array<string>, n: nat, i: nat)
    requires i < n <= args.Length
    modifies args
    ensures args[..] == Shifted(old(args[..]), n, i)
  {
    for j := i to n - 1
      invariant forall k | 0 <= k < args.Length :: args[k] == old(args[if i <= k < j then k + 1 else k])
    {
      args[j] := args[j + 1];
    }
    ShiftedAt(old(args[..]), n, i);
  }

  /** The backing array and the end of the slice when the elements from `i` onward have been pruned, `kept` and
      `stale` being what is kept and stale of them. */
  ghost predicate PrunedTo(contents: seq<string>, all: seq<string>, rest: seq<string>, i: nat, end: nat,
                           kept: seq<string>, stale: seq<string>) {
    && i <= |all| && kept == Keep(IsEmptyArg, all[i..]) && stale == Stale(IsEmptyArg, all[i..])
    && contents == all[..i] + (kept + (stale + rest))
    && end == i + |kept|
  }

  /** One iteration of the pruning loop. */
  method PruneAt(args: array<string>, end: nat, i: nat, ghost all: seq<string>, ghost rest: seq<string>,
                 ghost kept: seq<string>, ghost stale: seq<string>)
    returns (end': nat, ghost kept': seq<string>, ghost stale': seq<string>)
    requires PrunedTo(args[..], all, rest, i + 1, end, kept, stale)
    modifies args
    ensures PrunedTo(args[..], all, rest, i, end', kept', stale')
  {
    PruneStep(IsEmptyArg, all, rest, i, args[..], kept, stale);
    assert args[..][i] == args[i];
    end' := end;
    if args[i] == "" || args[i][|args[i]| - 1] == '=' {
      kept', stale' := kept, [LastOr(kept, all[i])] + stale;
      DeleteAt(args, end, i);
      end' := end - 1;
    } else {
      kept', stale' := [all[i]] + kept, stale;
    }
  }

  /** The backing array when the slice of it from `lo` to `hi` has been pruned. */
  function PrunedSlice(contents: seq<string>, lo: nat, hi: nat): seq<string>
    requires lo <= hi <= |contents|
  {
    contents[..lo] + (Keep(IsEmptyArg, contents[lo..hi]) + (Stale(IsEmptyArg, contents[lo..hi]) + contents[hi..]))
  }

  /** The end of the slice from `lo` to `hi` when it has been pruned. */
  function PrunedEnd(contents: seq<string>, lo: nat, hi: nat): (end: nat)
    requires lo <= hi <= |contents|
    ensures lo <= end <= hi
  {
    assert |Keep(IsEmptyArg, contents[lo..hi])| + |Stale(IsEmptyArg, contents[lo..hi])| == hi - lo;
    lo + |Keep(IsEmptyArg, contents[lo..hi])|
  }

  lemma ThreeParts<T>(a: seq<T>, b: seq<T>, c: seq<T>, d: seq<T>)
    ensures var s := a + (b + (c + d));
            && s[..|a|] == a && s[|a|..|a| + |b|] == b && s[|a| + |b| + |c|..] == d
  {
  }

  /** Pruning keeps what is outside the slice, and the pruned slice is what is kept of it. */
  lemma PrunedSliceMeaning(contents: seq<string>, lo: nat, hi: nat)
    requires lo <= hi <= |contents|
    ensures var r := PrunedSlice(contents, lo, hi);
            && |r| == |contents| && r[..lo] == contents[..lo] && r[hi..] == contents[hi..]
            && r[lo..PrunedEnd(contents, lo, hi)] == Keep(IsEmptyArg, contents[lo..hi])
  {
    ThreeParts(contents[..lo], Keep(IsEmptyArg, contents[lo..hi]), Stale(IsEmptyArg, contents[lo..hi]), contents[hi..]);
  }

  /** Prunes the slice of `args` from `lo` to `hi` and returns its new end. */
  method PruneEmptyArgs(args: array<string>, lo: nat, hi: nat) returns (end: nat)
    requires lo <= hi <= args.Length
    modifies args
    ensures end == PrunedEnd(old(args[..]), lo, hi)
    ensures args[..] == PrunedSlice(old(args[..]), lo, hi)
  {
    ghost var all, rest := args[..hi], args[hi..];
    ghost var kept: seq<string>, stale: seq<string> := [], [];
    end := hi;
    var i := hi;
    assert all[hi..] == [];
    while i > lo
      invariant lo <= i <= hi && PrunedTo(args[..], all, rest, i, end, kept, stale)
    {
      i := i - 1;
      end, kept, stale := PruneAt(args, end, i, all, rest, kept, stale);
    }
    assert all[lo..] == old(args[..])[lo..hi] && all[..lo] == old(args[..])[..lo];
  }

  // ---------------------------------------------------------------- merging

  predicate HasCommand(args: seq<string>) {
    args != [] && !HasPrefix(args[0], "--")
  }

  /** The command name; an empty one counts as none. */
  function Command(e: seq<string>): seq<string> {
    if HasCommand(e) && e[0] != "" then [e[0]] else []
  }

  function FlagPart(e: seq<string>): seq<string> {
    if HasCommand(e) then e[1..] else e
  }

  /** The merge proper, of pruned lists. */
  function MergedKept(rep: string -> bool, e: seq<string>, a: seq<string>): seq<string> {
    Command(e) + Normalised(SyntaxOf(rep), FlagPart(e) + a)
  }

  /** What is returned for the two pruned slices. */
  function MergedSlices(rep: string -> bool, e: seq<string>, a: seq<string>): seq<string> {
    if a == [] then e else Keep(IsEmptyArg, MergedKept(rep, e, a))
  }

  /** The value of a merge. */
  function Merged(rep: string -> bool, existing: seq<string>, additional: seq<string>): seq<string> {
    var e, a := Keep(IsEmptyArg, existing), Keep(IsEmptyArg, additional);
    if a == [] then e else MergedKept(rep, e, a)
  }

  method MergeKeptArgs(rep: string -> bool, existingArgs: seq<string>, additionalArgs: seq<string>)
    returns (result: seq<string>)
    ensures result == MergedKept(rep, existingArgs, additionalArgs)
  {
    var cmdName, flagArgs := "", existingArgs;
    if |existingArgs| > 0 && !HasPrefix(existingArgs[0], "--") {
      cmdName, flagArgs := existingArgs[0], existingArgs[1..];
    }
    var head: seq<string> := [];
    if cmdName != "" {
      head := head + [cmdName];
    }
    result := MergeFlags(SyntaxOf(rep), head, flagArgs, additionalArgs);
  }

  /** The final prune works on the freshly built slice. */
  method PruneFresh(args: seq<string>) returns (result: seq<string>)
    ensures result == Keep(IsEmptyArg, args)
  {
    var buffer := new string[|args|](i requires 0 <= i < |args| => args[i]);
    assert buffer[..] == args && args[0..|args|] == args;
    PrunedSliceMeaning(args, 0, |args|);
    var end := PruneEmptyArgs(buffer, 0, |args|);
    result := buffer[..][0..end];
  }

  /** The array of the additional arguments when the existing ones have been pruned: they may share it. */
  ghost function BeforeSecondPrune(shared: bool, existing: seq<string>, elo: nat, ehi: nat,
                                   additional: seq<string>): seq<string>
    requires elo <= ehi <= |existing|
  {
    if shared then PrunedSlice(existing, elo, ehi) else additional
  }

  /** The slices do not overlap. */
  predicate Apart(shared: bool, elo: nat, ehi: nat, alo: nat, ahi: nat) {
    !shared || ehi <= alo || ahi <= elo
  }

  /** Two arrays that agree outside a slice agree on a slice apart from it. */
  lemma SubSlice(s: seq<string>, t: seq<string>, lo: nat, hi: nat, from: nat, to: nat)
    requires lo <= hi <= |s| == |t| && from <= to <= |s| && (hi <= from || to <= lo)
    requires s[..from] == t[..from] && s[to..] == t[to..]
    ensures s[lo..hi] == t[lo..hi]
  {
    forall i | lo <= i < hi ensures s[i] == t[i] {
      if hi <= from {
        assert s[..from][i] == t[..from][i];
      } else {
        assert s[to..][i - to] == t[to..][i - to];
      }
    }
  }

  lemma MergedKeptMembers(rep: string -> bool, e: seq<string>, a: seq<string>)
    ensures forall x | x in MergedKept(rep, e, a) :: x in e || x in a
  {
    NormalisedMeaning(SyntaxOf(rep), FlagPart(e) + a);
    assert forall x | x in FlagPart(e) :: x in e;
  }

  /** A merge never contains an argument that pruning would remove, so its final prune changes nothing. */
  lemma MergedIsPruned(rep: string -> bool, existing: seq<string>, additional: seq<string>)
    ensures Keep(IsEmptyArg, Merged(rep, existing, additional)) == Merged(rep, existing, additional)
  {
    KeepMembers(IsEmptyArg, existing);
    KeepMembers(IsEmptyArg, additional);
    MergedKeptMembers(rep, Keep(IsEmptyArg, existing), Keep(IsEmptyArg, additional));
    KeepIdentity(IsEmptyArg, Merged(rep, existing, additional));
  }

  /** Slices that do not overlap are pruned independently. */
  lemma SlicesApart(rep: string -> bool, shared: bool, e: seq<string>, elo: nat, ehi: nat,
                    a: seq<string>, between: seq<string>, after: seq<string>, alo: nat, ahi: nat)
    requires elo <= ehi <= |e| && alo <= ahi <= |a| && (shared ==> a == e)
    requires between == BeforeSecondPrune(shared, e, elo, ehi, a) && |between| == |a|
    requires after == if shared then PrunedSlice(between, alo, ahi) else PrunedSlice(e, elo, ehi)
    ensures |after| == |e|
    ensures Apart(shared, elo, ehi, alo, ahi) ==>
              Merged(rep, e[elo..ehi], a[alo..ahi])
              == MergedSlices(rep, after[elo..PrunedEnd(e, elo, ehi)],
                  PrunedSlice(between, alo, ahi)[alo..PrunedEnd(between, alo, ahi)])
  {
    PrunedSliceMeaning(e, elo, ehi);
    PrunedSliceMeaning(between, alo, ahi);
    if Apart(shared, elo, ehi, alo, ahi) {
      if shared {
        SubSlice(between, e, alo, ahi, elo, ehi);
        SubSlice(after, between, elo, PrunedEnd(e, elo, ehi), alo, ahi);
      }
      assert between[alo..ahi] == a[alo..ahi];
      MergedIsPruned(rep, e[elo..ehi], a[alo..ahi]);
    }
  }

  /** Merges the slice of `existing` from `elo` to `ehi` with that of `additional` from `alo` to `ahi`. Both are
      pruned in place, one after the other; the result is a value. Unless they overlap it is the merge of
      the two slices as they were. */
  method MergeArgs(rep: string -> bool, existing: array<string>, elo: nat, ehi: nat, additional: array<string>,
                   alo: nat, ahi: nat)
    returns (result: seq<string>)
    requires elo <= ehi <= existing.Length && alo <= ahi <= additional.Length
    modifies existing, additional
    ensures var between := BeforeSecondPrune(existing == additional, old(existing[..]), elo, ehi, old(additional[..]));
            && |between| == additional.Length && additional[..] == PrunedSlice(between, alo, ahi)
            && result == MergedSlices(rep, existing[..][elo..PrunedEnd(old(existing[..]), elo, ehi)],
                                      additional[..][alo..PrunedEnd(between, alo, ahi)])
    ensures existing != additional ==> existing[..] == PrunedSlice(old(existing[..]), elo, ehi)
    ensures Apart(existing == additional, elo, ehi, alo, ahi) ==>
              result == Merged(rep, old(existing[..])[elo..ehi], old(additional[..])[alo..ahi])
  {
    ghost var e, a := existing[..], additional[..];
    PrunedSliceMeaning(e, elo, ehi);
    var eEnd := PruneEmptyArgs(existing, elo, ehi);
    ghost var between := additional[..];
    PrunedSliceMeaning(between, alo, ahi);
    var aEnd := PruneEmptyArgs(additional, alo, ahi);
    var existingArgs, additionalArgs := existing[..][elo..eEnd], additional[..][alo..aEnd];
    SlicesApart(rep, existing == additional, e, elo, ehi, a, between, existing[..], alo, ahi);
    if |additionalArgs| == 0 {
      return existingArgs;
    }
    var merged := MergeKeptArgs(rep, existingArgs, additionalArgs);
    result := PruneFresh(merged);
  }

  // ---------------------------------------------------------------- what a merge returns

  /** The existing flag arguments a merge works on: everything kept but the command name. */
  function ExistingFlagArgs(existing: seq<string>): seq<string> {
    FlagPart(Keep(IsEmptyArg, existing))
  }

  function FlagArgs(existing: seq<string>, additional: seq<string>): seq<string> {
    ExistingFlagArgs(existing) + Keep(IsEmptyArg, additional)
  }

  /** `r` without its command name, if the existing arguments had one. */
  function FlagsOf(existing: seq<string>, r: seq<string>): seq<string> {
    if HasCommand(Keep(IsEmptyArg, existing)) && r != [] then r[1..] else r
  }

  lemma HeadOfMerge(x: string, n: seq<string>)
    ensures ([x] + n)[0] == x && ([x] + n)[1..] == n
  {
  }

  lemma FlagsOfMerged(rep: string -> bool, existing: seq<string>, additional: seq<string>)
    requires Keep(IsEmptyArg, additional) != []
    ensures FlagsOf(existing, Merged(rep, existing, additional)) ==
            Normalised(SyntaxOf(rep), FlagArgs(existing, additional))
    ensures var e, r := Keep(IsEmptyArg, existing), Merged(rep, existing, additional);
            HasCommand(e) ==> r != [] && r[0] == e[0]
  {
    var e := Keep(IsEmptyArg, existing);
    if HasCommand(e) {
      KeepMembers(IsEmptyArg, existing);
      assert e[0] in e;
      HeadOfMerge(e[0], Normalised(SyntaxOf(rep), FlagArgs(existing, additional)));
    }
  }

  /** What a merge returns: the command name first, then the flags in order of first appearance, with
      every instance of a repeatable flag and the last one of any other, and nothing else. */
  lemma MergeMeaning(rep: string -> bool, existing: seq<string>, additional: seq<string>)
    requires Keep(IsEmptyArg, additional) != []
    ensures var syn, e := SyntaxOf(rep), Keep(IsEmptyArg, existing);
            var r, args := Merged(rep, existing, additional), FlagArgs(existing, additional);
            var flags := FlagsOf(existing, r);
            && (HasCommand(e) ==> r != [] && r[0] == e[0])
            && Order(syn, flags) == Order(syn, args)
            && (forall flag | flag != "" :: Instances(syn, flag, flags) == Chosen(syn, flag, args))
            && (forall x | x in flags :: HasPrefix(x, "--"))
  {
    var syn, args := SyntaxOf(rep), FlagArgs(existing, additional);
    FlagsOfMerged(rep, existing, additional);
    NormalisedMeaning(syn, args);
    forall x | x in Normalised(syn, args) ensures HasPrefix(x, "--") {
      FlagHasName(x);
    }
  }

  /** Those among the arguments that give the flag, in order. */
  ghost function Given(name: string, args: seq<string>): seq<string> {
    if args == [] then []
    else Given(name, args[..|args| - 1]) + if Gives(name, args[|args| - 1]) then [args[|args| - 1]] else []
  }

  lemma {:induction false} GivenInstances(rep: string -> bool, name: string, args: seq<string>)
    requires IsFlagName(name)
    ensures Given(name, args) == Instances(SyntaxOf(rep), name, args)
  {
    if args == [] {
    } else {
      GivenInstances(rep, name, args[..|args| - 1]);
      ExtractFlagExactlyWhen(name, args[|args| - 1]);
    }
  }

  lemma {:induction false} GivenConcat(name: string, a: seq<string>, b: seq<string>)
    ensures Given(name, a + b) == Given(name, a) + Given(name, b)
  {
    if b == [] {
      assert a + b == a;
    } else {
      assert (a + b)[..|a + b| - 1] == a + b[..|b| - 1];
      GivenConcat(name, a, b[..|b| - 1]);
    }
  }

  lemma CommandGivesNothing(name: string, e: seq<string>)
    requires IsFlagName(name)
    ensures Given(name, Command(e)) == [] && Given(name, FlagPart(e)) == Given(name, e)
  {
    if HasCommand(e) {
      var first := e[0];
      ExtractFlagExactlyWhen(name, first);
      assert !Gives(name, first) by {
        FlagHasName(first);
      }
      assert [first][..0] == [] && Given(name, [first]) == [];
      assert e == [first] + e[1..];
      GivenConcat(name, [first], e[1..]);
    }
  }

  /** What a flag may have in the result: all that is given for it, or the last. */
  function LastOf(all: seq<string>): seq<string> {
    if all == [] then [] else [all[|all| - 1]]
  }

  /** The merge, flag by flag and on the arguments as they are written: of a flag that may repeat every argument
      that is not empty, the existing ones first; of any other the last one given, by the user if there is one. */
  lemma MergedByName(rep: string -> bool, existing: seq<string>, additional: seq<string>, name: string)
    requires IsFlagName(name) && Keep(IsEmptyArg, additional) != []
    ensures var all := Given(name, Keep(IsEmptyArg, existing)) + Given(name, Keep(IsEmptyArg, additional));
            Given(name, Merged(rep, existing, additional)) == if rep(name) then all else LastOf(all)
  {
    var e, a := Keep(IsEmptyArg, existing), Keep(IsEmptyArg, additional);
    var syn, args := SyntaxOf(rep), FlagPart(e) + a;
    NormalisedMeaning(syn, args);
    CommandGivesNothing(name, e);
    GivenConcat(name, Command(e), Normalised(syn, args));
    GivenConcat(name, FlagPart(e), a);
    GivenInstances(rep, name, args);
    GivenInstances(rep, name, Normalised(syn, args));
  }

  lemma {:induction false} GivenMembers(name: string, args: seq<string>)
    ensures forall x :: x in Given(name, args) <==> x in args && Gives(name, x)
  {
    if args == [] {
    } else {
      GivenMembers(name, args[..|args| - 1]);
      assert args == args[..|args| - 1] + [args[|args| - 1]];
    }
  }

  /** A single argument of the flag is in a single place. */
  lemma {:induction false} GivenOnce(name: string, args: seq<string>, x: string) returns (k: nat)
    requires Given(name, args) == [x]
    ensures k < |args| && args[k] == x && forall j | 0 <= j < |args| && j != k :: !Gives(name, args[j])
  {
    var front, last := args[..|args| - 1], args[|args| - 1];
    if Gives(name, last) {
      k := |args| - 1;
      GivenMembers(name, front);
      assert Given(name, args) == Given(name, front) + [last] && Given(name, args)[|Given(name, front)|] == last;
      assert Given(name, front) == [];
      forall j | 0 <= j < |args| && j != k ensures !Gives(name, args[j]) {
        assert args[j] in front;
      }
    } else {
      k := GivenOnce(name, front, x);
    }
  }

  /** The argument does not end in `=`, so pruning keeps it if it is not empty. */
  predicate HasValue(arg: string) {
    arg != "" && arg[|arg| - 1] != '='
  }

  lemma NothingGiven(name: string, tail: seq<string>)
    requires forall j | 0 <= j < |tail| && HasValue(tail[j]) :: !Gives(name, tail[j])
    ensures Given(name, Keep(IsEmptyArg, tail)) == []
  {
    var given := Given(name, Keep(IsEmptyArg, tail));
    GivenMembers(name, Keep(IsEmptyArg, tail));
    KeepMembers(IsEmptyArg, tail);
    forall y | y in tail && Gives(name, y) ensures IsEmptyArg(y) {
      var j :| 0 <= j < |tail| && tail[j] == y;
      assert HasValue(tail[j]) ==> !Gives(name, tail[j]);
    }
    EmptyOrInhabited(given);
  }

  lemma GivenSingle(name: string, x: string)
    requires Gives(name, x) && HasValue(x)
    ensures Keep(IsEmptyArg, [x]) == [x] && Given(name, [x]) == [x]
  {
    assert [x][..0] == [] && [x][1..] == [];
  }

  lemma LastGiven(name: string, front: seq<string>, x: string, tail: seq<string>)
    requires Gives(name, x) && HasValue(x)
    requires forall j | 0 <= j < |tail| && HasValue(tail[j]) :: !Gives(name, tail[j])
    ensures var kept := Keep(IsEmptyArg, front + ([x] + tail));
            kept != [] && Given(name, kept) == Given(name, Keep(IsEmptyArg, front)) + [x]
  {
    var f, t := Keep(IsEmptyArg, front), Keep(IsEmptyArg, tail);
    GivenSingle(name, x);
    NothingGiven(name, tail);
    KeepConcat(IsEmptyArg, [x], tail);
    KeepConcat(IsEmptyArg, front, [x] + tail);
    GivenConcat(name, [x], t);
    GivenConcat(name, f, [x] + t);
  }

  lemma LastOfConcat(a: seq<string>, b: seq<string>, x: string)
    ensures LastOf(a + (b + [x])) == [x]
  {
  }

  /** The user wins: when a flag that may not repeat is given by the user, as `additional[i]` for the last time, the
      result has one argument for it and that is the user's, whatever there was before. */
  lemma AdditionalWins(rep: string -> bool, existing: seq<string>, additional: seq<string>, name: string, i: nat)
    returns (k: nat)
    requires IsFlagName(name) && !rep(name)
    requires i < |additional| && Gives(name, additional[i]) && HasValue(additional[i])
    requires forall j | i < j < |additional| && HasValue(additional[j]) :: !Gives(name, additional[j])
    ensures var r := Merged(rep, existing, additional);
            && k < |r| && r[k] == additional[i]
            && forall j | 0 <= j < |r| && j != k :: !Gives(name, r[j])
  {
    var front, x, tail := additional[..i], additional[i], additional[i + 1..];
    assert additional == front + ([x] + tail);
    LastGiven(name, front, x, tail);
    LastOfConcat(Given(name, Keep(IsEmptyArg, existing)), Given(name, Keep(IsEmptyArg, front)), x);
    MergedByName(rep, existing, additional, name);
    k := GivenOnce(name, Merged(rep, existing, additional), x);
  }

  lemma NormalisedTwo<A>(syn: Syntax<A>, x: A, y: A)
    requires syn.flagOf(x) == syn.flagOf(y) != "" && !syn.repeatable(syn.flagOf(x))
    ensures Normalised(syn, [x] + [y]) == [y]
  {
    var flag := syn.flagOf(x);
    OrderSnoc(syn, [], x);
    assert [] + [x] == [x];
    OrderSnoc(syn, [x], y);
    ChosenSnoc(syn, [x], y, flag);
    assert [flag][..0] == [];
    assert Emit(syn, [flag], [x] + [y]) == Emit(syn, [], [x] + [y]) + Chosen(syn, flag, [x] + [y]);
  }

  lemma KeepTwo(x: string, y: string)
    requires HasValue(x) && HasValue(y)
    ensures Keep(IsEmptyArg, [x, y]) == [x, y] && Keep(IsEmptyArg, [y]) == [y]
  {
    assert [x, y][1..] == [y] && [y][1..] == [];
    assert Keep(IsEmptyArg, [y]) == [y] + Keep(IsEmptyArg, []);
    assert Keep(IsEmptyArg, [x, y]) == [x] + Keep(IsEmptyArg, [y]);
  }

  /** A flag set by the operator and set again by the user: the user's value in the operator's place. */
  lemma OverriddenInPlace(rep: string -> bool, command: string, name: string, u: string, v: string)
    requires IsFlagName(name) && !rep(name)
    requires HasValue(command) && (|command| < 2 || command[0] != '-' || command[1] != '-')
    requires HasValue(name + "=" + u) && HasValue(name + "=" + v)
    ensures Merged(rep, [command, name + "=" + u], [name + "=" + v]) == [command, name + "=" + v]
  {
    var x, y, syn := name + "=" + u, name + "=" + v, SyntaxOf(rep);
    assert Gives(name, x) && Gives(name, y);
    ExtractFlagExactlyWhen(name, x);
    ExtractFlagExactlyWhen(name, y);
    KeepTwo(command, x);
    KeepTwo(x, y);
    var e := [command, x];
    assert HasCommand(e) && Command(e) == [command] && FlagPart(e) == [x];
    NormalisedTwo(syn, x, y);
  }

  // ---------------------------------------------------------------- composition

  /** A command name in front of flags is found again. */
  lemma MergedOnTop(rep: string -> bool, e: seq<string>, n: seq<string>, b: seq<string>)
    requires n != [] ==> HasPrefix(n[0], "--")
    ensures MergedKept(rep, Command(e) + n, b) == Command(e) + Normalised(SyntaxOf(rep), n + b)
  {
    if Command(e) == [] {
      assert Command(e) + n == n && Command(n) == [];
    } else {
      HeadOfMerge(e[0], n);
    }
  }

  /** What is normalised starts with a flag, if with anything. */
  lemma NormalisedStartsWithFlag(rep: string -> bool, args: seq<string>)
    ensures var n := Normalised(SyntaxOf(rep), args);
            n != [] ==> HasPrefix(n[0], "--")
  {
    var n := Normalised(SyntaxOf(rep), args);
    NormalisedMeaning(SyntaxOf(rep), args);
    if n != [] {
      assert n[0] in n;
      FlagHasName(n[0]);
    }
  }

  lemma KeptComposition(rep: string -> bool, e: seq<string>, a: seq<string>, b: seq<string>)
    ensures MergedKept(rep, MergedKept(rep, e, a), b) == MergedKept(rep, e, a + b)
  {
    var syn, head := SyntaxOf(rep), FlagPart(e);
    var n := Normalised(syn, head + a);
    NormalisedStartsWithFlag(rep, head + a);
    calc {
      MergedKept(rep, MergedKept(rep, e, a), b);
      MergedKept(rep, Command(e) + n, b);
      { MergedOnTop(rep, e, n, b); }
      Command(e) + Normalised(syn, n + b);
      { NormalisedAppend(syn, head + a, b); }
      Command(e) + Normalised(syn, (head + a) + b);
      { Assoc(head, a, b); }
      Command(e) + Normalised(syn, head + (a + b));
      MergedKept(rep, e, a + b);
    }
  }

  /** The composition law: merging twice is merging once with the additional arguments concatenated. */
  lemma MergeComposition(rep: string -> bool, e: seq<string>, a: seq<string>, b: seq<string>)
    ensures Merged(rep, Merged(rep, e, a), b) == Merged(rep, e, a + b)
  {
    var a', b' := Keep(IsEmptyArg, a), Keep(IsEmptyArg, b);
    KeepConcat(IsEmptyArg, a, b);
    MergedIsPruned(rep, e, a);
    if a' != [] && b' != [] {
      KeptComposition(rep, Keep(IsEmptyArg, e), a', b');
    } else {
      assert a' + b' == if a' == [] then b' else a';
    }
  }
}

module ThanosArgs {
  import Args

  const THANOS_REPEATABLE_FLAGS: seq<string> := [
    "--query.replica-label",
    "--query.partition-label",
    "--selector-label",
    "--query.telemetry.request-duration-seconds-quantiles",
    "--query.telemetry.request-samples-quantiles",
    "--query.telemetry.request-series-seconds-quantiles",
    "--store.sd-files",
    "--endpoint",
    "--endpoint-group",
    "--endpoint-strict",
    "--endpoint-group-strict",
    "--inject-test-addresses",
    "--label",
    "--rule-file",
    "--grpc-query-endpoint",
    "--query",
    "--query.sd-files",
    "--receive.otlp-promote-resource-attributes",
    "--query-frontend.forward-header"
  ]

  // The flags that may repeat, component by component.

  const QUERY_FLAGS := {
    "--query.replica-label", "--query.partition-label", "--selector-label",
    "--query.telemetry.request-duration-seconds-quantiles", "--query.telemetry.request-samples-quantiles",
    "--query.telemetry.request-series-seconds-quantiles", "--store.sd-files", "--endpoint", "--endpoint-group",
    "--endpoint-strict", "--endpoint-group-strict", "--inject-test-addresses"
  }

  const OTHER_FLAGS := {
    "--label", "--rule-file", "--grpc-query-endpoint", "--query", "--query.sd-files",
    "--receive.otlp-promote-resource-attributes", "--query-frontend.forward-header"
  }

  predicate IsRepeatableFlag(flag: string) {
    flag in QUERY_FLAGS || flag in OTHER_FLAGS
  }

  lemma QueryFlagsAreListed(flag: string)
    requires flag in QUERY_FLAGS
    ensures flag in THANOS_REPEATABLE_FLAGS
  {
    var t := THANOS_REPEATABLE_FLAGS;
    assert t[0] in t && t[1] in t && t[2] in t && t[3] in t && t[4] in t && t[5] in t;
    assert t[6] in t && t[7] in t && t[8] in t && t[9] in t && t[10] in t && t[11] in t;
  }

  lemma OtherFlagsAreListed(flag: string)
    requires flag in OTHER_FLAGS
    ensures flag in THANOS_REPEATABLE_FLAGS
  {
    var t := THANOS_REPEATABLE_FLAGS;
    assert t[12] in t && t[13] in t && t[14] in t && t[15] in t && t[16] in t && t[17] in t && t[18] in t;
  }

  lemma ListedFlags(flag: string)
    requires flag in THANOS_REPEATABLE_FLAGS
    ensures IsRepeatableFlag(flag)
  {
  }

  /** `isRepeatableFlag`. */
  method CheckRepeatableFlag(flag: string) returns (repeatable: bool)
    ensures repeatable <==> IsRepeatableFlag(flag)
  {
    for i := 0 to |THANOS_REPEATABLE_FLAGS|
      invariant flag !in THANOS_REPEATABLE_FLAGS[..i]
    {
      if flag == THANOS_REPEATABLE_FLAGS[i] {
        ListedFlags(flag);
        return true;
      }
    }
    repeatable := false;
    if flag in QUERY_FLAGS {
      QueryFlagsAreListed(flag);
    }
    if flag in OTHER_FLAGS {
      OtherFlagsAreListed(flag);
    }
  }

  function Merged(existing: seq<string>, additional: seq<string>): seq<string> {
    Args.Merged(IsRepeatableFlag, existing, additional)
  }

  /** The operator's merges of a pod template's arguments, the user's and then the tracing flag, are one merge. */
  lemma UserThenTracing(container: seq<string>, user: seq<string>, tracing: seq<string>)
    ensures Merged(Merged(container, user), tracing) == Merged(container, user + tracing)
  {
    Args.MergeComposition(IsRepeatableFlag, container, user, tracing);
  }
}
