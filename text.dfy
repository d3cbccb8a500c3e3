/** The Python string operations the bot relies on: `lower()`, the substring test
    `needle in hay`, `strip()` and `" ".join(parts)`. */
module Text {

  /** Case fold of one character; only ASCII letters are folded. */
  function LowerChar(c: char): char
  {
    if 'A' <= c <= 'Z' then (c as int + 32) as char else c
  }

  /** `s.lower()`, restricted to ASCII letters. */
  function Lower(s: string): (r: string)
    ensures |r| == |s|
  {
    seq(|s|, i requires 0 <= i < |s| => LowerChar(s[i]))
  }

  /** Folding twice is folding once. */
  lemma LowerIdempotent(s: string)
    ensures Lower(Lower(s)) == Lower(s)
  {
  }

  predicate StartsWith(s: string, prefix: string)
  {
    |prefix| <= |s| && s[..|prefix|] == prefix
  }

  /** `needle in hay` on Python strings, computed by trying every start position. */
  predicate Contains(hay: string, needle: string)
    decreases |hay|
  {
    StartsWith(hay, needle) || (hay != [] && Contains(hay[1..], needle))
  }

  /** Reference definition of a substring: `needle` is the slice of `hay` starting at `i`. */
  ghost predicate OccursAt(hay: string, needle: string, i: int)
  {
    0 <= i && i + |needle| <= |hay| && hay[i..i + |needle|] == needle
  }

  /** The executable test agrees with the reference definition, both ways. */
  lemma {:induction false} ContainsIffOccurs(hay: string, needle: string)
    ensures Contains(hay, needle) <==> exists i :: OccursAt(hay, needle, i)
    decreases |hay|
  {
    if StartsWith(hay, needle) {
      assert OccursAt(hay, needle, 0);
    } else if hay == [] {
      assert |needle| > 0;
    } else {
      ContainsIffOccurs(hay[1..], needle);
      if Contains(hay[1..], needle) {
        var i :| OccursAt(hay[1..], needle, i);
        TailSlice(hay, i + 1, |needle|);
        assert OccursAt(hay, needle, i + 1);
      }
      if exists i :: OccursAt(hay, needle, i) {
        var i :| OccursAt(hay, needle, i);
        assert i != 0;
        TailSlice(hay, i, |needle|);
        assert OccursAt(hay[1..], needle, i - 1);
      }
    }
  }

  /** A slice of the tail is the slice of the whole one position further on. */
  lemma TailSlice(hay: string, i: int, n: nat)
    requires 1 <= i && i + n <= |hay|
    ensures hay[1..][i - 1..i - 1 + n] == hay[i..i + n]
  {
    var a, b := hay[1..][i - 1..i - 1 + n], hay[i..i + n];
    forall k | 0 <= k < n ensures a[k] == b[k] {
      assert hay[1..][i - 1 + k] == hay[i + k];
    }
    assert a == b;
  }

  /** Python's `str.isspace()` for one character: the Unicode whitespace set. */
  predicate IsSpace(c: char)
  {
    || c == ' '
    || ('\t' <= c <= '\r')
    || ('\U{1C}' <= c <= '\U{1F}')
    || c == '\U{85}' || c == '\U{A0}' || c == '\U{1680}'
    || ('\U{2000}' <= c <= '\U{200A}')
    || c == '\U{2028}' || c == '\U{2029}' || c == '\U{202F}' || c == '\U{205F}' || c == '\U{3000}'
  }

  ghost predicate AllSpace(s: string)
  {
    forall k :: 0 <= k < |s| ==> IsSpace(s[k])
  }

  /** Number of leading whitespace characters. */
  function LeadingSpaces(s: string): (i: nat)
    ensures i <= |s|
    ensures forall k :: 0 <= k < i ==> IsSpace(s[k])
    ensures i < |s| ==> !IsSpace(s[i])
  {
    if s == [] || !IsSpace(s[0]) then 0 else 1 + LeadingSpaces(s[1..])
  }

  /** Index at which the trailing whitespace begins. */
  function TrailingStart(s: string): (j: nat)
    ensures j <= |s|
    ensures forall k :: j <= k < |s| ==> IsSpace(s[k])
    ensures 0 < j ==> !IsSpace(s[j - 1])
  {
    if s == [] || !IsSpace(s[|s| - 1]) then |s| else TrailingStart(s[..|s| - 1])
  }

  /** `s.strip()`: the slice of `s` left once whitespace is removed at both ends. */
  function Strip(s: string): (r: string)
    ensures r != [] ==> !IsSpace(r[0]) && !IsSpace(r[|r| - 1])
    ensures r == [] <==> AllSpace(s)
    ensures LeadingSpaces(s) + |r| <= |s|
    ensures r == s[LeadingSpaces(s)..LeadingSpaces(s) + |r|]
    ensures forall k :: LeadingSpaces(s) + |r| <= k < |s| ==> IsSpace(s[k])
  {
    var rest := s[LeadingSpaces(s)..];
    rest[..TrailingStart(rest)]
  }

  /** A string without whitespace at either end is its own `strip()`. */
  lemma StripTrimmed(t: string)
    requires Trimmed(t)
    ensures Strip(t) == t
  {
    assert LeadingSpaces(t) == 0;
  }

  /** Non-empty, with no whitespace at either end: a word as `str.split()` yields it, or a
      ledger link as its file holds it. */
  predicate Trimmed(s: string)
  {
    s != [] && !IsSpace(s[0]) && !IsSpace(s[|s| - 1])
  }

  /** `" ".join(parts)`. */
  function JoinSpaced(parts: seq<string>): string
  {
    if |parts| == 0 then ""
    else if |parts| == 1 then parts[0]
    else parts[0] + " " + JoinSpaced(parts[1..])
  }

  /** The joined text is blank exactly when every part is blank. */
  lemma {:induction false} JoinSpacedAllSpace(parts: seq<string>)
    ensures AllSpace(JoinSpaced(parts)) <==> forall i :: 0 <= i < |parts| ==> AllSpace(parts[i])
  {
    if |parts| > 1 {
      JoinSpacedAllSpace(parts[1..]);
      var j := JoinSpaced(parts[1..]);
      var s := parts[0] + " " + j;
      assert s == JoinSpaced(parts);
      if AllSpace(s) {
        assert AllSpace(parts[0]) by {
          forall k | 0 <= k < |parts[0]| ensures IsSpace(parts[0][k]) { assert s[k] == parts[0][k]; }
        }
        assert AllSpace(j) by {
          forall k | 0 <= k < |j| ensures IsSpace(j[k]) { assert s[|parts[0]| + 1 + k] == j[k]; }
        }
        forall i | 0 <= i < |parts| ensures AllSpace(parts[i]) {
          if i > 0 { assert parts[i] == parts[1..][i - 1]; }
        }
      }
      if forall i :: 0 <= i < |parts| ==> AllSpace(parts[i]) {
        assert AllSpace(parts[0]);
        assert forall i :: 0 <= i < |parts[1..]| ==> AllSpace(parts[1..][i]) by {
          forall i | 0 <= i < |parts[1..]| ensures AllSpace(parts[1..][i]) { assert parts[1..][i] == parts[i + 1]; }
        }
        forall k | 0 <= k < |s| ensures IsSpace(s[k]) {
          if k < |parts[0]| { assert s[k] == parts[0][k]; }
          else if k > |parts[0]| { assert s[k] == j[k - |parts[0]| - 1]; }
        }
      }
    }
  }

  /** Joining words that carry no whitespace at their ends gives text that starts with the
      first word's first character and ends with the last word's last one. */
  lemma {:induction false} JoinSpacedEnds(parts: seq<string>)
    requires parts != [] && forall i :: 0 <= i < |parts| ==> Trimmed(parts[i])
    ensures Trimmed(JoinSpaced(parts))
    decreases |parts|
  {
    if |parts| > 1 {
      assert forall i :: 0 <= i < |parts[1..]| ==> Trimmed(parts[1..][i]) by {
        forall i | 0 <= i < |parts[1..]| ensures Trimmed(parts[1..][i]) { assert parts[1..][i] == parts[i + 1]; }
      }
      JoinSpacedEnds(parts[1..]);
      var j := JoinSpaced(parts[1..]);
      var s := parts[0] + " " + j;
      assert s[0] == parts[0][0] && s[|s| - 1] == j[|j| - 1];
    }
  }

  /** Stripping words joined by spaces gives the joined text itself. */
  lemma JoinWordsStripped(args: seq<string>)
    ensures (forall i :: 0 <= i < |args| ==> Trimmed(args[i])) ==> Strip(JoinSpaced(args)) == JoinSpaced(args)
  {
    if args != [] && forall i :: 0 <= i < |args| ==> Trimmed(args[i]) {
      JoinSpacedEnds(args);
      StripTrimmed(JoinSpaced(args));
    }
  }

  /** `get_command_args_as_string(args)`: the arguments joined by one space, stripped. */
  function CommandArgs(args: seq<string>): (r: string)
    ensures r != [] ==> Trimmed(r)
    ensures r == [] <==> forall i :: 0 <= i < |args| ==> AllSpace(args[i])
    ensures (forall i :: 0 <= i < |args| ==> Trimmed(args[i])) ==> r == JoinSpaced(args)
    ensures |args| == 1 && (args[0] == [] || Trimmed(args[0])) ==> r == args[0]
  {
    JoinSpacedAllSpace(args);
    JoinWordsStripped(args);
    Strip(JoinSpaced(args))
  }
}
