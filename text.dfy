/**
 * The few Python string operations the CPD log relies on, restricted to
 * ASCII: `str.isspace`, `str.strip`, `str.lower`, `str.split(sep)` with a
 * one-character separator and `sep.join(parts)`.
 */
module Text {

  /** Python's `str.isspace` on ASCII: tab, line feed, vertical tab, form
      feed, carriage return, the four information separators 0x1C-0x1F,
      and space. */
  predicate IsSpace(c: char) {
    ('\t' <= c <= '\r') || ('\U{1C}' <= c <= ' ')
  }

  /** No whitespace at either end. */
  predicate IsStripped(s: string) {
    s == [] || (!IsSpace(s[0]) && !IsSpace(s[|s| - 1]))
  }

  /** The length of the longest whitespace prefix of `s`. */
  function LeadingSpaces(s: string): (n: nat)
    ensures n <= |s|
    ensures forall i :: 0 <= i < n ==> IsSpace(s[i])
    ensures n == |s| || !IsSpace(s[n])
  {
    if s != [] && IsSpace(s[0]) then 1 + LeadingSpaces(s[1..]) else 0
  }

  /** The length of the longest whitespace suffix of `s`. */
  function TrailingSpaces(s: string): (n: nat)
    ensures n <= |s|
    ensures forall i :: |s| - n <= i < |s| ==> IsSpace(s[i])
    ensures n == |s| || !IsSpace(s[|s| - n - 1])
  {
    if s != [] && IsSpace(s[|s| - 1]) then 1 + TrailingSpaces(s[..|s| - 1]) else 0
  }

  /** `s.strip()`: the slice of `s` left when the whitespace at both ends is
      cut away; everything cut away is whitespace. */
  function Strip(s: string): (r: string)
    ensures IsStripped(r)
    ensures LeadingSpaces(s) + |r| <= |s|
    ensures r == s[LeadingSpaces(s)..LeadingSpaces(s) + |r|]
    ensures forall i :: LeadingSpaces(s) + |r| <= i < |s| ==> IsSpace(s[i])
    ensures IsStripped(s) ==> r == s
  {
    var rest := s[LeadingSpaces(s)..];
    rest[..|rest| - TrailingSpaces(rest)]
  }

  /** A character not in `s` is not in `Strip(s)`. */
  lemma StripKeepsAbsent(s: string, c: char)
    ensures c !in s ==> c !in Strip(s)
  {
    var r, k := Strip(s), LeadingSpaces(s);
    forall j | 0 <= j < |r| ensures r[j] in s {
      assert r[j] == s[k + j];
    }
  }

  /** A stripped string is empty exactly when the original was all whitespace. */
  lemma StripEmptyIff(s: string)
    ensures Strip(s) == [] <==> forall i :: 0 <= i < |s| ==> IsSpace(s[i])
  {
  }

  predicate IsUpper(c: char) {
    'A' <= c <= 'Z'
  }

  /** ASCII `str.lower` on one character. */
  function LowerChar(c: char): (r: char)
    ensures !IsUpper(r)
    ensures !IsUpper(c) ==> r == c
    ensures IsUpper(c) ==> 'a' <= r <= 'z' && r as int == c as int + 32
  {
    if IsUpper(c) then (c as int + 32) as char else c
  }

  /** ASCII `str.lower`. */
  function Lower(s: string): (r: string)
    ensures |r| == |s|
    ensures forall i :: 0 <= i < |s| ==> r[i] == LowerChar(s[i])
  {
    seq(|s|, i requires 0 <= i < |s| => LowerChar(s[i]))
  }

  predicate IsLowerCase(s: string) {
    forall i :: 0 <= i < |s| ==> !IsUpper(s[i])
  }

  /** Lower-casing changes letters only, so it keeps the string lower-case,
      stripped (whitespace is untouched) and free of any non-letter character
      that was absent before. */
  lemma LowerKeeps(s: string, c: char)
    requires !IsUpper(c) && !('a' <= c <= 'z')
    ensures IsStripped(s) ==> IsStripped(Lower(s))
    ensures c !in s ==> c !in Lower(s)
  {
    var r := Lower(s);
    if c in r {
      var j :| 0 <= j < |r| && r[j] == c;
      assert LowerChar(s[j]) == c;
      assert s[j] == c;
    }
  }

  /** Lower-casing gives a lower-case string and is idempotent. */
  lemma LowerIsLowerCase(s: string)
    ensures IsLowerCase(Lower(s))
    ensures Lower(Lower(s)) == Lower(s)
  {
  }

  /** `s.split(c)` for a one-character separator: the pieces between
      consecutive occurrences of `c`; there is always at least one piece. */
  function Split(s: string, c: char): (r: seq<string>)
    ensures |r| >= 1
  {
    if s == [] then [[]]
    else
      var rest := Split(s[1..], c);
      if s[0] == c then [[]] + rest
      else [[s[0]] + rest[0]] + rest[1..]
  }

  /** No piece of `s.split(c)` contains `c`. */
  lemma {:induction false} SplitPiecesFree(s: string, c: char)
    ensures forall i :: 0 <= i < |Split(s, c)| ==> c !in Split(s, c)[i]
  {
    if s != [] {
      SplitPiecesFree(s[1..], c);
    }
  }

  /** `s.split(c)` has one more piece than `s` has occurrences of `c`. */
  lemma {:induction false} SplitCount(s: string, c: char)
    ensures |Split(s, c)| == multiset(s)[c] + 1
  {
    if s != [] {
      SplitCount(s[1..], c);
      assert s == [s[0]] + s[1..];
    }
  }

  /** `sep.join(parts)`. */
  function Join(parts: seq<string>, sep: string): (r: string)
    ensures parts != [] ==> parts[0] <= r
  {
    if parts == [] then []
    else if |parts| == 1 then parts[0]
    else parts[0] + sep + Join(parts[1..], sep)
  }

  /** Joining a list of at least two pieces puts the separator in the result. */
  lemma JoinHasSeparator(parts: seq<string>, c: char)
    requires |parts| >= 2
    ensures c in Join(parts, [c])
  {
    assert Join(parts, [c])[|parts[0]|] == c;
  }

  lemma {:induction false} SplitWithout(s: string, c: char)
    requires c !in s
    ensures Split(s, c) == [s]
  {
    if s != [] {
      SplitWithout(s[1..], c);
      assert s == [s[0]] + s[1..];
    }
  }

  lemma {:induction false} SplitAfterFirst(a: string, c: char, b: string)
    requires c !in a
    ensures Split(a + [c] + b, c) == [a] + Split(b, c)
  {
    if a == [] {
      assert (a + [c] + b)[1..] == b;
    } else {
      SplitAfterFirst(a[1..], c, b);
      assert (a + [c] + b)[1..] == a[1..] + [c] + b;
      assert [a[0]] + a[1..] == a;
    }
  }

  /** Splitting undoes joining, when no piece holds the separator. */
  lemma {:induction false} SplitJoin(parts: seq<string>, c: char)
    requires parts != []
    requires forall i :: 0 <= i < |parts| ==> c !in parts[i]
    ensures Split(Join(parts, [c]), c) == parts
  {
    if |parts| == 1 {
      SplitWithout(parts[0], c);
    } else {
      SplitJoin(parts[1..], c);
      SplitAfterFirst(parts[0], c, Join(parts[1..], [c]));
      assert [parts[0]] + parts[1..] == parts;
    }
  }

  /** Joining undoes splitting: the pieces of `s.split(c)` are a partition of `s`. */
  lemma {:induction false} JoinSplit(s: string, c: char)
    ensures Join(Split(s, c), [c]) == s
  {
    if s != [] {
      var rest := Split(s[1..], c);
      JoinSplit(s[1..], c);
      assert Join(rest, [c]) == s[1..];
      if s[0] == c {
        var r := [[]] + rest;
        assert Split(s, c) == r;
        assert r[1..] == rest;
        assert Join(r, [c]) == [] + [c] + Join(rest, [c]);
        assert [c] + s[1..] == s;
      } else {
        var r := [[s[0]] + rest[0]] + rest[1..];
        assert Split(s, c) == r;
        assert r[1..] == rest[1..];
        if |rest| == 1 {
          assert Join(r, [c]) == [s[0]] + rest[0];
          assert Join(rest, [c]) == rest[0];
        } else {
          assert Join(r, [c]) == [s[0]] + rest[0] + [c] + Join(rest[1..], [c]);
          assert Join(rest, [c]) == rest[0] + [c] + Join(rest[1..], [c]);
        }
        assert [s[0]] + s[1..] == s;
      }
    }
  }

  /** Text put in front of the first piece ends up in front of the join. */
  lemma JoinPrefixFirst(parts: seq<string>, x: string, sep: string)
    requires parts != []
    ensures Join([x + parts[0]] + parts[1..], sep) == x + Join(parts, sep)
  {
    var q := [x + parts[0]] + parts[1..];
    assert q[1..] == parts[1..];
  }

  /** A non-empty stripped slice with only whitespace around it is what
      `strip` returns. */
  lemma StripSurrounded(s: string, k: nat, l: string)
    requires l != [] && IsStripped(l)
    requires k + |l| <= |s| && s[k..k + |l|] == l
    requires forall i :: 0 <= i < k ==> IsSpace(s[i])
    requires forall i :: k + |l| <= i < |s| ==> IsSpace(s[i])
    ensures Strip(s) == l
  {
    assert s[k] == l[0];
    assert LeadingSpaces(s) == k;
    assert s[k + |l| - 1] == l[|l| - 1];
  }

  /** Spaces around a stripped non-empty string are what `strip` removes. */
  lemma StripPadded(l: string, before: bool, after: bool)
    requires l != [] && IsStripped(l)
    ensures Strip((if before then " " else "") + l + (if after then " " else "")) == l
  {
    var pre: string := if before then " " else "";
    var post: string := if after then " " else "";
    var s := pre + l + post;
    assert s[|pre|..|pre| + |l|] == l;
    assert forall i :: 0 <= i < |pre| ==> s[i] == ' ';
    assert forall i :: |pre| + |l| <= i < |s| ==> s[i] == ' ';
    StripSurrounded(s, |pre|, l);
  }

  /** Joining two non-empty lists one after the other puts the separator
      between their joins. */
  lemma {:induction false} JoinConcat(p: seq<string>, q: seq<string>, sep: string)
    requires p != [] && q != []
    ensures Join(p + q, sep) == Join(p, sep) + sep + Join(q, sep)
  {
    if |p| == 1 {
      JoinFront(p, q, sep);
      assert Join(p, sep) == p[0];
    } else {
      JoinConcat(p[1..], q, sep);
      JoinFront(p, q, sep);
      assert Join(p, sep) == p[0] + sep + Join(p[1..], sep);
    }
  }

  /** The join of `p + q` starts with the first piece of `p` and a separator. */
  lemma JoinFront(p: seq<string>, q: seq<string>, sep: string)
    requires p != [] && q != []
    ensures Join(p + q, sep) == p[0] + sep + Join(p[1..] + q, sep)
  {
    var pq := p + q;
    assert |pq| >= 2 && pq[0] == p[0] && pq[1..] == p[1..] + q;
  }

  /** Appending one piece to a non-empty join adds the separator and the piece. */
  lemma {:induction false} JoinAppend(parts: seq<string>, p: string, sep: string)
    requires parts != []
    ensures Join(parts + [p], sep) == Join(parts, sep) + sep + p
  {
    if |parts| > 1 {
      JoinAppend(parts[1..], p, sep);
      assert (parts + [p])[1..] == parts[1..] + [p];
    } else {
      assert (parts + [p])[1..] == [p];
    }
  }
}
