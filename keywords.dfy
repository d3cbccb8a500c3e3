/** The keyword-list edits behind /addkeyword, /delkeyword and /editkeyword
    (bot.py:276-280, 331-368, 395-407). Matching is case-insensitive. */
module Keywords {
  import opened Wrappers
  import opened Text
  import opened Numbers
  import opened Ordering

  /** `[kw.lower() for kw in kws]`. */
  function FoldAll(kws: seq<string>): (r: seq<string>)
    ensures |r| == |kws|
  {
    seq(|kws|, i requires 0 <= i < |kws| => Lower(kws[i]))
  }

  /** `k.lower() in [kw.lower() for kw in kws]`. */
  predicate HasFolded(kws: seq<string>, k: string)
  {
    Lower(k) in FoldAll(kws)
  }

  /** The membership test holds exactly when some entry equals `k` up to case. */
  lemma HasFoldedIff(kws: seq<string>, k: string)
    ensures HasFolded(kws, k) <==> exists i :: 0 <= i < |kws| && Lower(kws[i]) == Lower(k)
  {
    if HasFolded(kws, k) {
      var i :| 0 <= i < |FoldAll(kws)| && FoldAll(kws)[i] == Lower(k);
      assert Lower(kws[i]) == Lower(k);
    }
    if exists i :: 0 <= i < |kws| && Lower(kws[i]) == Lower(k) {
      var i :| 0 <= i < |kws| && Lower(kws[i]) == Lower(k);
      assert FoldAll(kws)[i] == Lower(k);
    }
  }

  /** No two entries are equal up to case. */
  ghost predicate FoldedDistinct(kws: seq<string>)
  {
    forall i, j :: 0 <= i < j < |kws| ==> Lower(kws[i]) != Lower(kws[j])
  }

  /** No entry of `s` equals `x` up to case. */
  ghost predicate NoneFoldsTo(s: seq<string>, x: string)
  {
    forall y :: y in s ==> Lower(y) != Lower(x)
  }

  lemma {:induction false} InsertKeepsDistinct(s: seq<string>, x: string)
    requires Sorted(s) && FoldedDistinct(s) && NoneFoldsTo(s, x)
    ensures FoldedDistinct(Insert(s, x))
    decreases |s|
  {
    if s != [] && !StrLe(x, s[0]) {
      var t := Insert(s[1..], x);
      InsertKeepsDistinct(s[1..], x);
      assert Insert(s, x) == [s[0]] + t;
      forall j | 0 <= j < |t| ensures Lower(s[0]) != Lower(t[j]) {
        var y := t[j];
        assert y in multiset(t);
        if y != x {
          assert y in multiset(s[1..]);
          var m :| 0 <= m < |s[1..]| && s[1..][m] == y;
          assert s[m + 1] == y;
        }
      }
    }
  }

  lemma {:induction false} SortKeepsDistinct(s: seq<string>)
    requires FoldedDistinct(s)
    ensures FoldedDistinct(Sort(s))
    decreases |s|
  {
    if s != [] {
      var front, x := s[..|s| - 1], s[|s| - 1];
      assert s == front + [x];
      SortKeepsDistinct(front);
      forall y | y in Sort(front) ensures Lower(y) != Lower(x) {
        assert y in multiset(Sort(front));
        var p :| 0 <= p < |front| && front[p] == y;
        assert s[p] == y;
      }
      InsertKeepsDistinct(Sort(front), x);
    }
  }

  /** The list after `/addkeyword k` (bot.py:276-278): unchanged if `k` is already
      there up to case, otherwise `k` is appended and the list is sorted. */
  function AddKeyword(kws: seq<string>, k: string): (r: seq<string>)
    ensures HasFolded(kws, k) ==> r == kws
    ensures !HasFolded(kws, k) ==> |r| == |kws| + 1 && Sorted(r)
    ensures !HasFolded(kws, k) ==> multiset(r) == multiset(kws) + multiset{k}
  {
    if HasFolded(kws, k) then kws else Sort(kws + [k])
  }

  /** After `/addkeyword k` the keyword is present up to case. */
  lemma AddKeywordPresent(kws: seq<string>, k: string)
    ensures HasFolded(AddKeyword(kws, k), k)
  {
    var r := AddKeyword(kws, k);
    HasFoldedIff(r, k);
    if !HasFolded(kws, k) {
      assert k in multiset(r);
      var p :| 0 <= p < |r| && r[p] == k;
    }
  }

  /** Adding keeps the list free of case-insensitive duplicates. */
  lemma AddKeywordKeepsDistinct(kws: seq<string>, k: string)
    requires FoldedDistinct(kws)
    ensures FoldedDistinct(AddKeyword(kws, k))
  {
    HasFoldedIff(kws, k);
    if !HasFolded(kws, k) {
      var s := kws + [k];
      assert FoldedDistinct(s) by {
        forall i, j | 0 <= i < j < |s| ensures Lower(s[i]) != Lower(s[j]) {
          if j == |kws| { assert s[i] == kws[i]; }
        }
      }
      SortKeepsDistinct(s);
    }
  }

  /** `kws.pop(i)`. */
  function RemoveAt(kws: seq<string>, i: nat): (r: seq<string>)
    requires i < |kws|
    ensures |r| == |kws| - 1
    ensures forall j :: 0 <= j < i ==> r[j] == kws[j]
    ensures forall j :: i <= j < |r| ==> r[j] == kws[j + 1]
    ensures multiset(r) == multiset(kws) - multiset{kws[i]}
  {
    assert kws == kws[..i] + [kws[i]] + kws[i + 1..];
    kws[..i] + kws[i + 1..]
  }

  lemma RemoveAtKeepsOrder(kws: seq<string>, i: nat)
    requires i < |kws|
    ensures Sorted(kws) ==> Sorted(RemoveAt(kws, i))
    ensures FoldedDistinct(kws) ==> FoldedDistinct(RemoveAt(kws, i))
  {
    var r := RemoveAt(kws, i);
    if Sorted(kws) {
      forall a, b | 0 <= a < b < |r| ensures StrLe(r[a], r[b]) {
        var a', b' := if a < i then a else a + 1, if b < i then b else b + 1;
        assert r[a] == kws[a'] && r[b] == kws[b'];
      }
    }
    if FoldedDistinct(kws) {
      forall a, b | 0 <= a < b < |r| ensures Lower(r[a]) != Lower(r[b]) {
        var a', b' := if a < i then a else a + 1, if b < i then b else b + 1;
        assert r[a] == kws[a'] && r[b] == kws[b'];
      }
    }
  }

  /** `[kw for kw in kws if kw.lower() != folded]`: the list rebuilt at bot.py:350-357. */
  function WithoutFolded(kws: seq<string>, folded: string): seq<string>
    decreases |kws|
  {
    if kws == [] then []
    else
      var last := kws[|kws| - 1];
      WithoutFolded(kws[..|kws| - 1], folded) + (if Lower(last) == folded then [] else [last])
  }

  /** The last entry equal to `folded` up to case: the value `found_kw_original_case` ends with. */
  function LastFolded(kws: seq<string>, folded: string): Option<string>
    decreases |kws|
  {
    if kws == [] then None
    else if Lower(kws[|kws| - 1]) == folded then Some(kws[|kws| - 1])
    else LastFolded(kws[..|kws| - 1], folded)
  }

  /** Each string keeps its number of occurrences, except those matching `folded`, which vanish. */
  lemma {:induction false} WithoutFoldedCount(kws: seq<string>, folded: string, x: string)
    ensures multiset(WithoutFolded(kws, folded))[x] == if Lower(x) == folded then 0 else multiset(kws)[x]
    decreases |kws|
  {
    if kws != [] {
      var front, last := kws[..|kws| - 1], kws[|kws| - 1];
      assert kws == front + [last];
      WithoutFoldedCount(front, folded, x);
    }
  }

  lemma WithoutFoldedMember(kws: seq<string>, folded: string, x: string)
    ensures x in WithoutFolded(kws, folded) <==> x in kws && Lower(x) != folded
  {
    WithoutFoldedCount(kws, folded, x);
    assert x in WithoutFolded(kws, folded) <==> x in multiset(WithoutFolded(kws, folded));
    assert x in kws <==> x in multiset(kws);
  }

  /** Filtering distributes over concatenation: the kept entries stay in their order. */
  lemma {:induction false} WithoutFoldedAppend(a: seq<string>, b: seq<string>, folded: string)
    ensures WithoutFolded(a + b, folded) == WithoutFolded(a, folded) + WithoutFolded(b, folded)
    decreases |b|
  {
    if b == [] {
      assert a + b == a;
    } else {
      var front, last := b[..|b| - 1], b[|b| - 1];
      assert (a + b)[..|a + b| - 1] == a + front;
      WithoutFoldedAppend(a, front, folded);
    }
  }

  /** Some entry equals `folded` once lower-cased. */
  predicate AnyFolded(kws: seq<string>, folded: string)
  {
    exists i :: 0 <= i < |kws| && Lower(kws[i]) == folded
  }

  lemma AnyFoldedSnoc(front: seq<string>, last: string, folded: string)
    ensures AnyFolded(front + [last], folded) <==> AnyFolded(front, folded) || Lower(last) == folded
  {
    var kws := front + [last];
    if AnyFolded(front, folded) {
      var i :| 0 <= i < |front| && Lower(front[i]) == folded;
      assert kws[i] == front[i];
    }
    if AnyFolded(kws, folded) {
      var i :| 0 <= i < |kws| && Lower(kws[i]) == folded;
      if i < |front| { assert front[i] == kws[i]; }
    }
    assert kws[|front|] == last;
  }

  /** Without a match the list is unchanged; with one it gets shorter. */
  lemma {:induction false} WithoutFoldedLength(kws: seq<string>, folded: string)
    ensures |WithoutFolded(kws, folded)| <= |kws|
    ensures AnyFolded(kws, folded) <==> |WithoutFolded(kws, folded)| < |kws|
    ensures !AnyFolded(kws, folded) ==> WithoutFolded(kws, folded) == kws
    decreases |kws|
  {
    if kws != [] {
      var front, last := kws[..|kws| - 1], kws[|kws| - 1];
      assert kws == front + [last];
      WithoutFoldedLength(front, folded);
      AnyFoldedSnoc(front, last, folded);
    }
  }

  /** Filtering keeps a sorted, duplicate-free list sorted and duplicate-free. */
  lemma {:induction false} WithoutFoldedKeepsOrder(kws: seq<string>, folded: string)
    ensures Sorted(kws) ==> Sorted(WithoutFolded(kws, folded))
    ensures FoldedDistinct(kws) ==> FoldedDistinct(WithoutFolded(kws, folded))
    decreases |kws|
  {
    if kws != [] {
      var front, last := kws[..|kws| - 1], kws[|kws| - 1];
      var r' := WithoutFolded(front, folded);
      WithoutFoldedKeepsOrder(front, folded);
      forall y | y in r' ensures exists p :: 0 <= p < |front| && front[p] == y {
        WithoutFoldedMember(front, folded, y);
      }
      if Sorted(kws) {
        assert Sorted(front);
        forall a, b | 0 <= a < b < |r' + [last]| ensures StrLe((r' + [last])[a], (r' + [last])[b]) {
          if b == |r'| {
            assert r'[a] in r';
            var p :| 0 <= p < |front| && front[p] == r'[a];
            assert kws[p] == r'[a];
          } else {
            assert (r' + [last])[a] == r'[a] && (r' + [last])[b] == r'[b];
          }
        }
      }
      if FoldedDistinct(kws) {
        assert FoldedDistinct(front);
        forall a, b | 0 <= a < b < |r' + [last]| ensures Lower((r' + [last])[a]) != Lower((r' + [last])[b]) {
          if b == |r'| {
            assert r'[a] in r';
            var p :| 0 <= p < |front| && front[p] == r'[a];
            assert kws[p] == r'[a];
          } else {
            assert (r' + [last])[a] == r'[a] && (r' + [last])[b] == r'[b];
          }
        }
      }
    }
  }

  /** The last match, if any, is an entry of the list equal to `folded` up to case. */
  lemma {:induction false} LastFoldedFound(kws: seq<string>, folded: string)
    ensures LastFolded(kws, folded).Some? <==> exists i :: 0 <= i < |kws| && Lower(kws[i]) == folded
    ensures LastFolded(kws, folded).Some? ==> LastFolded(kws, folded).value in kws && Lower(LastFolded(kws, folded).value) == folded
    decreases |kws|
  {
    if kws != [] {
      var front := kws[..|kws| - 1];
      LastFoldedFound(front, folded);
      if exists i :: 0 <= i < |front| && Lower(front[i]) == folded {
        var i :| 0 <= i < |front| && Lower(front[i]) == folded;
        assert kws[i] == front[i];
      }
      if exists i :: 0 <= i < |kws| && Lower(kws[i]) == folded {
        var i :| 0 <= i < |kws| && Lower(kws[i]) == folded;
        if i < |front| { assert front[i] == kws[i]; }
      }
    }
  }

  /** The rebuild loop of bot.py:350-357: keeps every entry that does not match,
      and remembers the last one that does. */
  method RemoveFolded(kws: seq<string>, folded: string) returns (kept: seq<string>, found: Option<string>)
    ensures kept == WithoutFolded(kws, folded)
    ensures found == LastFolded(kws, folded)
  {
    kept, found := [], None;
    for i := 0 to |kws|
      invariant kept == WithoutFolded(kws[..i], folded)
      invariant found == LastFolded(kws[..i], folded)
    {
      assert kws[..i + 1][..i] == kws[..i];
      if Lower(kws[i]) == folded {
        found := Some(kws[i]);
      } else {
        kept := kept + [kws[i]];
      }
    }
    assert kws[..|kws|] == kws;
  }

  datatype DeleteOutcome = Deleted(keywords: seq<string>, removed: string) | InvalidIndex | NotFound

  /** Deleting by 1-based position `n` (bot.py:333-341): exactly entry `n - 1` goes. */
  function DeleteByPosition(kws: seq<string>, n: nat): (d: DeleteOutcome)
    ensures !d.NotFound?
    ensures d.Deleted? <==> 1 <= n <= |kws|
    ensures d.Deleted? ==> d.removed == kws[n - 1] && d.keywords == RemoveAt(kws, n - 1)
  {
    if 0 <= n - 1 < |kws| then Deleted(RemoveAt(kws, n - 1), kws[n - 1]) else InvalidIndex
  }

  /** Deleting by name (bot.py:345-368): every entry equal to `arg` up to case goes,
      the others stay in their order. */
  function DeleteByName(kws: seq<string>, arg: string): (d: DeleteOutcome)
    ensures !d.InvalidIndex?
    ensures arg != "" ==> (d.Deleted? <==> HasFolded(kws, arg))
    ensures d.Deleted? ==> Lower(d.removed) == Lower(arg) && d.removed in kws
    ensures d.Deleted? ==> d.keywords == WithoutFolded(kws, Lower(arg))
  {
    var folded := Lower(arg);
    var kept, found := WithoutFolded(kws, folded), LastFolded(kws, folded);
    LastFoldedFound(kws, folded);
    HasFoldedIff(kws, arg);
    assert found.Some? && arg != "" ==> found.value != "" by {
      if found.Some? { assert |Lower(found.value)| == |found.value|; }
    }
    // `if found_kw_original_case:` tests the string's truth value
    if found.Some? && found.value != "" then Deleted(kept, found.value) else NotFound
  }

  /** `/delkeyword arg` on a non-empty list (bot.py:331-368): a digit string is a
      1-based position and is never matched as a name; anything else is a name. */
  function DeleteKeyword(kws: seq<string>, arg: string): (d: DeleteOutcome)
    ensures IsDigitString(arg) ==> !d.NotFound?
    ensures IsDigitString(arg) ==> (d.Deleted? <==> 1 <= DigitsValue(arg) <= |kws|)
    ensures IsDigitString(arg) && d.Deleted? ==>
      d.removed == kws[DigitsValue(arg) - 1] && d.keywords == RemoveAt(kws, DigitsValue(arg) - 1)
    ensures !IsDigitString(arg) ==> !d.InvalidIndex?
    ensures !IsDigitString(arg) && arg != "" ==> (d.Deleted? <==> HasFolded(kws, arg))
    ensures !IsDigitString(arg) && d.Deleted? ==>
      Lower(d.removed) == Lower(arg) && d.removed in kws && d.keywords == WithoutFolded(kws, Lower(arg))
  {
    if IsDigitString(arg) then DeleteByPosition(kws, DigitsValue(arg)) else DeleteByName(kws, arg)
  }

  /** The deletion as bot.py:331-368 performs it: a digit argument is tried as a position,
      and if it is not one the rebuild loop looks for the name. */
  method RemoveKeyword(kws: seq<string>, arg: string) returns (outcome: DeleteOutcome)
    ensures outcome == DeleteKeyword(kws, arg)
  {
    if IsDigitString(arg) {
      var index := DigitsValue(arg) as int - 1;
      if 0 <= index < |kws| {
        return Deleted(RemoveAt(kws, index), kws[index]);
      }
      return InvalidIndex;
    }
    var kept, found := RemoveFolded(kws, Lower(arg));
    if found.Some? && found.value != "" {
      return Deleted(kept, found.value);
    }
    return NotFound;
  }

  /** A deletion removed one of the entries and nothing else, and kept the list sorted
      and free of case-insensitive duplicates. */
  ghost predicate Shrunk(kws: seq<string>, d: DeleteOutcome)
  {
    && d.Deleted?
    && d.removed in kws
    && |d.keywords| < |kws|
    && multiset(d.keywords) <= multiset(kws)
    && (Sorted(kws) ==> Sorted(d.keywords))
    && (FoldedDistinct(kws) ==> FoldedDistinct(d.keywords))
  }

  /** Every successful deletion, by position or by name, shrinks the list. */
  lemma DeleteKeywordShrinks(kws: seq<string>, arg: string)
    requires DeleteKeyword(kws, arg).Deleted?
    ensures Shrunk(kws, DeleteKeyword(kws, arg))
  {
    if IsDigitString(arg) {
      RemoveAtKeepsOrder(kws, DigitsValue(arg) - 1);
    } else {
      DeleteByNameShrinks(kws, arg);
    }
  }

  lemma DeleteByNameShrinks(kws: seq<string>, arg: string)
    requires DeleteByName(kws, arg).Deleted?
    ensures Shrunk(kws, DeleteByName(kws, arg))
  {
    var d := DeleteByName(kws, arg);
    var folded := Lower(arg);
    WithoutFoldedLength(kws, folded);
    WithoutFoldedKeepsOrder(kws, folded);
    forall x ensures multiset(d.keywords)[x] <= multiset(kws)[x] {
      WithoutFoldedCount(kws, folded, x);
    }
    var p :| 0 <= p < |kws| && kws[p] == d.removed;
    assert Lower(kws[p]) == folded;
  }

  /** In `kws + [k]` with `k` new up to case, `k` is the only entry that folds to it. */
  lemma OnlyAddedFolds(kws: seq<string>, k: string, x: string)
    requires !HasFolded(kws, k) && x in multiset(kws) + multiset{k} && Lower(x) == Lower(k)
    ensures x == k
  {
    HasFoldedIff(kws, k);
  }

  lemma WithoutAddedKey(kws: seq<string>, k: string, r: seq<string>)
    requires !HasFolded(kws, k) && multiset(r) == multiset(kws) + multiset{k}
    ensures multiset(WithoutFolded(r, Lower(k))) == multiset(kws)
  {
    HasFoldedIff(kws, k);
    forall x ensures multiset(WithoutFolded(r, Lower(k)))[x] == multiset(kws)[x] {
      WithoutFoldedCount(r, Lower(k), x);
      if x in kws {
        var p :| 0 <= p < |kws| && kws[p] == x;
      }
    }
  }

  /** `/addkeyword k` followed by `/delkeyword k` gives the sorted list back, and the
      deletion reports `k` itself. */
  lemma AddThenDeleteRestores(kws: seq<string>, k: string)
    requires Sorted(kws) && !HasFolded(kws, k) && k != "" && !IsDigitString(k)
    ensures DeleteKeyword(AddKeyword(kws, k), k) == Deleted(kws, k)
  {
    var r := AddKeyword(kws, k);
    AddKeywordPresent(kws, k);
    var d := DeleteByName(r, k);
    OnlyAddedFolds(kws, k, d.removed);
    WithoutAddedKey(kws, k, r);
    WithoutFoldedKeepsOrder(r, Lower(k));
    SortedPermutationUnique(d.keywords, kws);
  }

  datatype EditOutcome = Edited(keywords: seq<string>, replaced: string) | NotANumber | EmptyPhrase | NoSuchPosition

  /** `/editkeyword n phrase` on a non-empty list (bot.py:395-407): the entry at the
      1-based position `n` is replaced and the list re-sorted. No duplicate check. */
  function EditKeyword(kws: seq<string>, indexArg: string, phrase: string): (e: EditOutcome)
    ensures e.NotANumber? <==> ParseInt(indexArg).None?
    ensures e.EmptyPhrase? <==> ParseInt(indexArg).Some? && phrase == ""
    ensures e.Edited? <==> ParseInt(indexArg).Some? && phrase != "" && 1 <= ParseInt(indexArg).value <= |kws|
    ensures e.Edited? ==> e.replaced == kws[ParseInt(indexArg).value - 1]
    ensures e.Edited? ==> |e.keywords| == |kws| && Sorted(e.keywords)
    ensures e.Edited? ==> multiset(e.keywords) == multiset(kws) - multiset{e.replaced} + multiset{phrase}
  {
    match ParseInt(indexArg)
    case None => NotANumber
    case Some(n) =>
      if phrase == "" then EmptyPhrase
      else if 0 <= n - 1 < |kws| then
        var edited := kws[n - 1 := phrase];
        assert multiset(edited) == multiset(kws) - multiset{kws[n - 1]} + multiset{phrase} by {
          assert kws == kws[..n - 1] + [kws[n - 1]] + kws[n..];
          assert edited == kws[..n - 1] + [phrase] + kws[n..];
        }
        Edited(Sort(edited), kws[n - 1])
      else NoSuchPosition
  }

  /** The edit as bot.py:395-407 performs it: parse the position, reject an empty
      phrase, then overwrite the entry in range and sort the list. */
  method ReplaceKeyword(kws: seq<string>, indexArg: string, phrase: string) returns (outcome: EditOutcome)
    ensures outcome == EditKeyword(kws, indexArg, phrase)
  {
    var parsed := ParseInt(indexArg);
    if parsed.None? {
      return NotANumber;
    }
    var index := parsed.value - 1;
    if phrase == [] {
      return EmptyPhrase;
    }
    if 0 <= index < |kws| {
      var was := kws[index];
      var edited := kws[index := phrase];
      edited := Sort(edited);
      return Edited(edited, was);
    }
    return NoSuchPosition;
  }

  lemma FoldSample()
    ensures Lower("Alpha") == "alpha" && Lower("alpha") == "alpha" && Lower("beta") == "beta"
  {
  }

  lemma ParseSample()
    ensures ParseInt("2") == Some(2)
  {
    assert IsDigitString("2");
    assert "2"[..0] == [];
  }

  lemma SortSample()
    ensures Sort(["alpha", "Alpha"]) == ["Alpha", "alpha"]
  {
    assert StrLe("Alpha", "alpha");
    assert ["alpha", "Alpha"][..1] == ["alpha"];
    assert Sort(["alpha"]) == ["alpha"] by { assert ["alpha"][..0] == []; }
  }

  /** Unlike adding, editing can create two entries that differ only in case. */
  lemma EditMayBreakDistinct()
    ensures FoldedDistinct(["alpha", "beta"])
    ensures var e := EditKeyword(["alpha", "beta"], "2", "Alpha");
      e == Edited(["Alpha", "alpha"], "beta") && !FoldedDistinct(e.keywords)
  {
    FoldSample();
    ParseSample();
    SortSample();
    var kws := ["alpha", "beta"];
    assert kws[1 := "Alpha"] == ["alpha", "Alpha"];
    assert Lower(["Alpha", "alpha"][0]) == Lower(["Alpha", "alpha"][1]);
  }
}
