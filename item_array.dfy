/** `ItemArray`: an ordered list of strings fed with strings, delimiter-joined
    strings and nested arrays of them. Modelled as the source writes it: the
    comparison inside `remove` pits a function object against a string, so
    nothing is ever removed and `add` never collapses duplicates. */
module ItemArrays {
  import opened JsStrings

  /** A value `add` and `remove` accept: a string, or an array of such values. */
  datatype Item = Str(text: string) | Arr(elems: seq<Item>)

  /** The JavaScript values the comparison in `remove` sees: a string, or a
      function object such as the `trim` method read off a string. */
  datatype JsValue = JsString(chars: string) | JsFunction(name: string)

  /** `===`: strings are equal when their characters are; a function object is
      never equal to a string. */
  predicate StrictEquals(a: JsValue, b: JsValue)
  {
    a == b
  }

  /** `===` tells strings apart by their characters and never equates a
      function object with a string. */
  lemma StrictEqualsStrings(a: string, b: string, f: string)
    ensures StrictEquals(JsString(a), JsString(b)) <==> a == b
    ensures !StrictEquals(JsFunction(f), JsString(b))
  {
  }

  /** What one string leaf contributes: its trim, unless that is empty. */
  function Leaf(s: string): (r: seq<string>)
  {
    var t := Trim(s);
    if t == "" then [] else [t]
  }

  /** The contributions of a list of leaves, in order. */
  function LeafPieces(parts: seq<string>): seq<string>
  {
    if parts == [] then [] else LeafPieces(parts[..|parts| - 1]) + Leaf(parts[|parts| - 1])
  }

  /** The strings one `add(item)` pushes, in input order: each string leaf is
      split on `d` and every piece trimmed, empty pieces dropped; arrays are
      flattened. */
  function Leaves(item: Item, d: char): seq<string>
    decreases item, 1
  {
    match item
    case Str(s) => LeafPieces(Split(s, d))
    case Arr(xs) => LeavesOf(xs, d)
  }

  function LeavesOf(xs: seq<Item>, d: char): seq<string>
    decreases xs, 0
  {
    if xs == [] then [] else LeavesOf(xs[..|xs| - 1], d) + Leaves(xs[|xs| - 1], d)
  }

  /** A termination measure for `add`: a string holding the delimiter weighs
      more than the pieces it is split into. */
  function Weight(item: Item, d: char): nat
    decreases item, 1
  {
    match item
    case Str(s) => if d in s then 2 else 1
    case Arr(xs) => 1 + WeightOf(xs, d)
  }

  function WeightOf(xs: seq<Item>, d: char): nat
    decreases xs, 0
  {
    if xs == [] then 0 else WeightOf(xs[..|xs| - 1], d) + Weight(xs[|xs| - 1], d)
  }

  lemma {:induction false} WeightOfElem(xs: seq<Item>, d: char, i: nat)
    requires i < |xs|
    ensures Weight(xs[i], d) <= WeightOf(xs, d)
  {
    if i < |xs| - 1 {
      WeightOfElem(xs[..|xs| - 1], d, i);
    }
  }

  /** The items of a freshly split string are its pieces as string leaves. */
  function Pieces(parts: seq<string>): (r: seq<Item>)
    ensures |r| == |parts|
    ensures forall i :: 0 <= i < |parts| ==> r[i] == Str(parts[i])
  {
    seq(|parts|, i requires 0 <= i < |parts| => Str(parts[i]))
  }

  /** Re-adding the pieces of a split one by one pushes what adding the
      unsplit string is specified to push. */
  lemma {:induction false} LeavesOfPieces(parts: seq<string>, d: char)
    requires forall i :: 0 <= i < |parts| ==> d !in parts[i]
    ensures LeavesOf(Pieces(parts), d) == LeafPieces(parts)
  {
    if parts != [] {
      var n := |parts| - 1;
      assert Pieces(parts)[..n] == Pieces(parts[..n]);
      LeavesOfPieces(parts[..n], d);
      SplitFree(parts[n], d);
      assert LeafPieces([parts[n]]) == Leaf(parts[n]);
    }
  }

  /** A string without the delimiter pushes its own trim, or nothing. */
  lemma LeavesOfPlainString(s: string, d: char)
    requires d !in s
    ensures Leaves(Str(s), d) == Leaf(s)
  {
    SplitFree(s, d);
    assert LeafPieces([s]) == LeafPieces([]) + Leaf(s);
  }

  /** Every string `add` pushes is non-empty, trimmed and free of the
      delimiter. */
  lemma {:induction false} LeavesClean(item: Item, d: char)
    ensures forall x :: x in Leaves(item, d) ==> x != "" && Trim(x) == x && d !in x
    decreases item, 1
  {
    match item
    case Str(s) => LeafPiecesClean(Split(s, d), d);
    case Arr(xs) => LeavesOfClean(xs, d);
  }

  lemma {:induction false} LeavesOfClean(xs: seq<Item>, d: char)
    ensures forall x :: x in LeavesOf(xs, d) ==> x != "" && Trim(x) == x && d !in x
    decreases xs, 0
  {
    if xs != [] {
      LeavesOfClean(xs[..|xs| - 1], d);
      LeavesClean(xs[|xs| - 1], d);
    }
  }

  lemma {:induction false} LeafPiecesClean(parts: seq<string>, d: char)
    requires forall i :: 0 <= i < |parts| ==> d !in parts[i]
    ensures forall x :: x in LeafPieces(parts) ==> x != "" && Trim(x) == x && d !in x
  {
    if parts != [] {
      LeafPiecesClean(parts[..|parts| - 1], d);
      LeafClean(parts[|parts| - 1], d);
    }
  }

  lemma LeafClean(p: string, d: char)
    requires d !in p
    ensures forall x :: x in Leaf(p) ==> x != "" && Trim(x) == x && d !in x
  {
    TrimIdempotent(p);
    TrimKeepsOut(p, d);
  }

  /** The empty string and the empty array push nothing, so an `ItemArray`
      built from either is empty. */
  lemma EmptyInputsPushNothing(d: char)
    ensures Leaves(Str(""), d) == [] && Leaves(Arr([]), d) == []
  {
    assert Split("", d) == [""];
    assert LeafPieces([""]) == LeafPieces([]) + Leaf("");
  }

  /** A clean value (non-empty, trimmed, no delimiter) pushes exactly itself,
      whether or not it is already in the list. */
  lemma CleanValuePushesItself(v: string, d: char)
    requires v != "" && Trim(v) == v && d !in v
    ensures Leaves(Str(v), d) == [v]
  {
    LeavesOfPlainString(v, d);
  }

  /** `list.splice(idx, 1)`: the list without its entry at `idx`. */
  function Splice(list: seq<string>, idx: int): (r: seq<string>)
    ensures 0 <= idx < |list| ==> |r| == |list| - 1 && r[..idx] == list[..idx] && r[idx..] == list[idx + 1..]
  {
    if 0 <= idx < |list| then list[..idx] + list[idx + 1..] else list
  }

  /** Each value `add` and `remove` recurse on weighs less than their input. */
  lemma ElemLighter(input: Item, xs: seq<Item>, i: nat, d: char)
    requires i < |xs|
    requires input == Arr(xs) || (input.Str? && d in input.text && xs == Pieces(Split(input.text, d)))
    ensures Weight(xs[i], d) < Weight(input, d)
  {
    if input.Arr? {
      WeightOfElem(xs, d, i);
    } else {
      assert xs[i] == Str(Split(input.text, d)[i]);
    }
  }

  /** Every element `add` recurses on weighs less than its input. */
  lemma ElemsLighter(input: Item, xs: seq<Item>, d: char)
    requires input == Arr(xs) || (input.Str? && d in input.text && xs == Pieces(Split(input.text, d)))
    ensures forall i :: 0 <= i < |xs| ==> Weight(xs[i], d) < Weight(input, d)
  {
    forall i | 0 <= i < |xs|
      ensures Weight(xs[i], d) < Weight(input, d)
    {
      ElemLighter(input, xs, i, d);
    }
  }

  lemma LeavesOfSnoc(xs: seq<Item>, i: nat, d: char)
    requires i < |xs|
    ensures LeavesOf(xs[..i + 1], d) == LeavesOf(xs[..i], d) + Leaves(xs[i], d)
  {
    assert xs[..i + 1][..i] == xs[..i];
  }

  class ItemArray {
    var items: seq<string>
    const filedelim: char

    /** `new ItemArray(items, filedelim)`: an empty list fed once with `input`. */
    constructor (input: Item, filedelim: char)
      ensures this.filedelim == filedelim
      ensures items == Leaves(input, filedelim)
    {
      this.filedelim := filedelim;
      items := [];
      new;
      Add(input);
    }

    /** `add(items)`: a string holding the delimiter is split and its pieces
        re-added; arrays are re-added element by element; any other string is
        trimmed and, unless empty, removed and then pushed. */
    method Add(input: Item)
      modifies this
      ensures items == old(items) + Leaves(input, filedelim)
      decreases Weight(input, filedelim), 1
    {
      if input.Str? && filedelim in input.text {
        var parts := Split(input.text, filedelim);
        LeavesOfPieces(parts, filedelim);
        ElemsLighter(input, Pieces(parts), filedelim);
        AddEach(Weight(input, filedelim), Pieces(parts));
      } else if input.Arr? {
        ElemsLighter(input, input.elems, filedelim);
        AddEach(Weight(input, filedelim), input.elems);
      } else {
        LeavesOfPlainString(input.text, filedelim);
        var t := Trim(input.text);
        if t != "" {
          Remove(Str(t));
          items := items + [t];
        }
      }
    }

    /** The loop of `add` over an array, or over the pieces of a split
        string: each element is added in turn. */
    method AddEach(ghost bound: nat, xs: seq<Item>)
      requires forall i :: 0 <= i < |xs| ==> Weight(xs[i], filedelim) < bound
      modifies this
      ensures items == old(items) + LeavesOf(xs, filedelim)
      decreases bound, 0
    {
      var idx := 0;
      while idx < |xs|
        invariant idx <= |xs|
        invariant items == old(items) + LeavesOf(xs[..idx], filedelim)
      {
        Add(xs[idx]);
        LeavesOfSnoc(xs, idx, filedelim);
        idx := idx + 1;
      }
      assert xs[..|xs|] == xs;
    }

    /** `remove(items)` as written: it splits and recurses like `add`, then
        compares each entry with `items.trim`, the trim function itself rather
        than a string, so no entry ever matches and the list stays as it was. */
    method Remove(input: Item)
      modifies this
      ensures items == old(items)
      decreases Weight(input, filedelim)
    {
      var value := input;
      if value.Str? && filedelim in value.text {
        value := Arr(Pieces(Split(value.text, filedelim)));
      }
      if value.Arr? {
        var xs := value.elems;
        var idx := 0;
        while idx < |xs|
          invariant idx <= |xs|
          invariant items == old(items)
        {
          ElemLighter(input, xs, idx, filedelim);
          Remove(xs[idx]);
          idx := idx + 1;
        }
      } else {
        var t := Trim(value.text);
        if t != "" {
          var list, idx := items, 0;
          while idx < |list|
            invariant list == old(items)
          {
            if StrictEquals(JsFunction("trim"), JsString(list[idx])) {
              list := Splice(list, idx);
            }
            idx := idx + 1;
          }
          items := list;
        }
      }
    }
  }

  /** Adding a value that is already in the list keeps both copies: a list
      built from a clean value `v` and then fed `v` again is [v, v]. */
  method ReAddKeepsDuplicate(v: string, d: char) returns (items: seq<string>)
    requires v != "" && Trim(v) == v && d !in v
    ensures items == [v, v]
  {
    CleanValuePushesItself(v, d);
    var list := new ItemArray(Str(v), d);
    list.Add(Str(v));
    items := list.items;
  }

  predicate Clean(x: string, d: char)
  {
    x != "" && Trim(x) == x && d !in x
  }

  lemma LeafOfClean(x: string, d: char)
    requires Clean(x, d)
    ensures Leaf(x) == [x]
  {
  }

  /** Clean pieces push themselves, one each. */
  lemma {:induction false} LeafPiecesOfClean(parts: seq<string>, d: char)
    requires forall i :: 0 <= i < |parts| ==> Clean(parts[i], d)
    ensures LeafPieces(parts) == parts
  {
    if parts != [] {
      var n := |parts| - 1;
      var init := parts[..n];
      forall i | 0 <= i < n
        ensures Clean(init[i], d)
      {
        assert init[i] == parts[i];
      }
      LeafPiecesOfClean(init, d);
      LeafOfClean(parts[n], d);
      assert LeafPieces(parts) == LeafPieces(init) + Leaf(parts[n]);
      assert init + [parts[n]] == parts;
    }
  }

  /** Feeding the delimiter-join of clean values pushes exactly those values,
      repeats included: "a,b,a" gives ["a", "b", "a"]. */
  lemma AsWrittenKeepsRepeats(parts: seq<string>, d: char)
    requires |parts| >= 1
    requires forall i :: 0 <= i < |parts| ==> Clean(parts[i], d)
    ensures Leaves(Str(JoinWith(parts, d)), d) == parts
  {
    SplitJoin(parts, d);
    LeafPiecesOfClean(parts, d);
  }

  /** Finding: the comparison `items.trim === this.items[idx]` was evidently
      meant to compare strings, so that `remove` deletes equal entries and
      `add` moves a repeated value to the end. These functions state that
      intended behaviour. `RemoveAll` deletes every equal entry; a repair of
      the comparison alone would still splice inside the index loop, skip
      the entry that moves into a removed slot and turn [a, a] into [a]. The
      two agree on lists without repeats, the only lists the intended `add`
      builds. */
  function RemoveAll(list: seq<string>, v: string): (r: seq<string>)
    ensures v !in r
    ensures forall x :: x in r <==> x in list && x != v
  {
    if list == [] then []
    else RemoveAll(list[..|list| - 1], v) + (if list[|list| - 1] == v then [] else [list[|list| - 1]])
  }

  /** Removing drops every copy of the value and keeps every copy of any
      other value. */
  lemma {:induction false} RemoveAllCounts(list: seq<string>, v: string)
    ensures multiset(RemoveAll(list, v)) == multiset(list)[v := 0]
  {
    if list != [] {
      var init, last := list[..|list| - 1], list[|list| - 1];
      assert list == init + [last];
      RemoveAllCounts(init, v);
      var m, r := multiset(init), multiset(RemoveAll(init, v));
      assert multiset(list) == m + multiset{last};
      if last == v {
        assert multiset(RemoveAll(list, v)) == r;
        assert (m + multiset{last})[v := 0] == m[v := 0];
      } else {
        assert multiset(RemoveAll(list, v)) == r + multiset{last};
        assert (m + multiset{last})[v := 0] == m[v := 0] + multiset{last};
      }
    }
  }

  /** Removing keeps the order of what it keeps: it works on each part of a
      list separately. */
  lemma {:induction false} RemoveAllAppend(xs: seq<string>, ys: seq<string>, v: string)
    ensures RemoveAll(xs + ys, v) == RemoveAll(xs, v) + RemoveAll(ys, v)
    decreases |ys|
  {
    if ys == [] {
      assert xs + ys == xs;
    } else {
      var init := ys[..|ys| - 1];
      var last := ys[|ys| - 1];
      assert (xs + ys)[..|xs + ys| - 1] == xs + init;
      assert (xs + ys)[|xs + ys| - 1] == last;
      RemoveAllAppend(xs, init, v);
    }
  }

  /** The intended `add` of a single clean value: remove it, then push it. */
  function DedupAppend(list: seq<string>, v: string): (r: seq<string>)
    ensures |r| >= 1 && r[|r| - 1] == v
    ensures forall x :: x in r[..|r| - 1] <==> x in list && x != v
    ensures r[..|r| - 1] == RemoveAll(list, v)
  {
    RemoveAll(list, v) + [v]
  }

  /** The intended `add` of a sequence of clean values, one after another. */
  function DedupAppendAll(list: seq<string>, vs: seq<string>): seq<string>
    decreases |vs|
  {
    if vs == [] then list else DedupAppendAll(DedupAppend(list, vs[0]), vs[1..])
  }

  predicate Distinct(list: seq<string>)
  {
    forall i, j :: 0 <= i < j < |list| ==> list[i] != list[j]
  }

  /** Removing keeps a list without repeats free of repeats. */
  lemma {:induction false} RemoveAllDistinct(list: seq<string>, v: string)
    requires Distinct(list)
    ensures Distinct(RemoveAll(list, v))
  {
    if list != [] {
      var init := list[..|list| - 1];
      assert Distinct(init);
      RemoveAllDistinct(init, v);
      var last := list[|list| - 1];
      assert last !in init;
    }
  }

  /** With the intended comparison, the list never holds a value twice, it
      holds exactly the values fed into it, and the last value fed is last. */
  lemma {:induction false} DedupAppendAllDistinct(list: seq<string>, vs: seq<string>)
    requires Distinct(list)
    ensures Distinct(DedupAppendAll(list, vs))
    ensures forall x :: x in DedupAppendAll(list, vs) <==> x in list || x in vs
    decreases |vs|
  {
    if vs != [] {
      var next := DedupAppend(list, vs[0]);
      RemoveAllDistinct(list, vs[0]);
      assert Distinct(next);
      DedupAppendAllDistinct(next, vs[1..]);
      assert forall x :: x in vs <==> x == vs[0] || x in vs[1..];
    }
  }

  /** The intended reading of "a,b,a,c": the repeated value moves to the end,
      giving [b, a, c] where the code as written keeps [a, b, a, c]. */
  lemma IntendedCollapsesRepeats(a: string, b: string, c: string, d: char)
    requires Clean(a, d) && Clean(b, d) && Clean(c, d)
    requires a != b && a != c && b != c
    ensures var vs := Leaves(Str(JoinWith([a, b, a, c], d)), d);
            vs == [a, b, a, c] && DedupAppendAll([], vs) == [b, a, c]
  {
    AsWrittenKeepsRepeats([a, b, a, c], d);
    RepeatMovesToEnd(a, b, c);
  }

  /** Feeding a, b, a, c with the intended `add` gives [b, a, c]. */
  lemma RepeatMovesToEnd(a: string, b: string, c: string)
    requires a != b && a != c && b != c
    ensures DedupAppendAll([], [a, b, a, c]) == [b, a, c]
  {
    RepeatSteps(a, b, c);
    DedupAppendAllCons([b, a], c, []);
    DedupAppendAllCons([a, b], a, [c]);
    DedupAppendAllCons([a], b, [a, c]);
    DedupAppendAllCons([], a, [b, a, c]);
  }

  /** The four single steps of feeding a, b, a, c. */
  lemma RepeatSteps(a: string, b: string, c: string)
    requires a != b && a != c && b != c
    ensures DedupAppend([], a) == [a]
    ensures DedupAppend([a], b) == [a, b]
    ensures DedupAppend([a, b], a) == [b, a]
    ensures DedupAppend([b, a], c) == [b, a, c]
  {
    assert RemoveAll([a], b) == [] + [a];
    assert RemoveAll([a, b], a) == [b] by {
      assert [a, b][..1] == [a];
      assert RemoveAll([a], a) == [];
    }
    assert RemoveAll([b, a], c) == [b, a] by {
      assert [b, a][..1] == [b];
      assert RemoveAll([b], c) == [b];
    }
  }

  lemma DedupAppendAllCons(list: seq<string>, v: string, vs: seq<string>)
    ensures DedupAppendAll(list, [v] + vs) == DedupAppendAll(DedupAppend(list, v), vs)
  {
    assert ([v] + vs)[1..] == vs;
  }
}
