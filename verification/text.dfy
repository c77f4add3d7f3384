/** The `std::string` operations the generators and the runtime lean on:
    trimming a set of blank characters off both ends (the
    `find_first_not_of` / `find_last_not_of` pair), counting a character,
    `find` from a position, the find-and-replace loop, and splitting at a
    separator character. */
module Text {
  import opened Results

  /** A half-open range `[start, end)` of positions in a text. */
  type Span = (nat, nat)

  // -------------------------------------------------------------------- Trim

  /** End of the leading run of `blanks` from `i`. */
  function LeadEnd(s: string, i: nat, blanks: set<char>): (j: nat)
    requires i <= |s|
    ensures i <= j <= |s| && (j < |s| ==> s[j] !in blanks)
    ensures forall k :: i <= k < j ==> s[k] in blanks
    decreases |s| - i
  {
    if i < |s| && s[i] in blanks then LeadEnd(s, i + 1, blanks) else i
  }

  /** Start of the trailing run of `blanks` that ends at `j`, not going
      below `i`. */
  function TrailStart(s: string, i: nat, j: nat, blanks: set<char>): (k: nat)
    requires i <= j <= |s|
    ensures i <= k <= j && (k > i ==> s[k - 1] !in blanks)
    ensures forall m :: k <= m < j ==> s[m] in blanks
    decreases j
  {
    if j > i && s[j - 1] in blanks then TrailStart(s, i, j - 1, blanks) else j
  }

  /** Where the text is left once its leading and trailing blanks are
      dropped; an all-blank text leaves an empty stretch. */
  function TrimBounds(s: string, blanks: set<char>): (b: Span)
    ensures b.0 <= b.1 <= |s|
    ensures forall k :: 0 <= k < b.0 ==> s[k] in blanks
    ensures forall k :: b.1 <= k < |s| ==> s[k] in blanks
    ensures b.0 < b.1 ==> s[b.0] !in blanks && s[b.1 - 1] !in blanks
    ensures b.0 == b.1 ==> forall k :: 0 <= k < |s| ==> s[k] in blanks
  {
    var i := LeadEnd(s, 0, blanks);
    (i, TrailStart(s, i, |s|, blanks))
  }

  /** The text without its leading and trailing blanks. */
  function Trim(s: string, blanks: set<char>): (r: string)
    ensures |r| <= |s|
    ensures |r| > 0 ==> r[0] !in blanks && r[|r| - 1] !in blanks
    ensures |r| == 0 <==> forall k :: 0 <= k < |s| ==> s[k] in blanks
  {
    var b := TrimBounds(s, blanks);
    assert b.0 < b.1 ==> s[b.0..b.1][0] == s[b.0];
    s[b.0..b.1]
  }

  /** Trimming blanks off `a + w + b`, where `a` and `b` are blanks and `w`
      has none at either end, leaves `w`. */
  lemma TrimAround(a: string, w: string, b: string, blanks: set<char>)
    requires forall k :: 0 <= k < |a| ==> a[k] in blanks
    requires forall k :: 0 <= k < |b| ==> b[k] in blanks
    requires |w| > 0 && w[0] !in blanks && w[|w| - 1] !in blanks
    ensures Trim(a + w + b, blanks) == w
  {
    var s := a + w + b;
    var bs := TrimBounds(s, blanks);
    assert s[|a|] == w[0];
    assert s[|a| + |w| - 1] == w[|w| - 1];
    assert bs.0 == |a|;
    assert bs.1 == |a| + |w|;
    assert s[|a|..|a| + |w|] == w;
  }

  /** Text with no blank at either end is left as it is, so trimming twice
      is trimming once. */
  lemma TrimIdempotent(s: string, blanks: set<char>)
    ensures Trim(Trim(s, blanks), blanks) == Trim(s, blanks)
  {
    var t := Trim(s, blanks);
    if |t| > 0 {
      TrimAround("", t, "", blanks);
      assert "" + t + "" == t;
    }
  }

  // ------------------------------------------------------------------- Count

  /** The number of times `c` occurs in `s`. */
  function Count(s: string, c: char): nat {
    if |s| == 0 then 0 else (if s[0] == c then 1 else 0) + Count(s[1..], c)
  }

  lemma {:induction false} CountAppend(a: string, b: string, c: char)
    ensures Count(a + b, c) == Count(a, c) + Count(b, c)
    decreases |a|
  {
    if |a| == 0 {
      assert a + b == b;
    } else {
      assert (a + b)[1..] == a[1..] + b;
      CountAppend(a[1..], b, c);
    }
  }

  /** A character absent from `s` is counted zero times, and conversely. */
  lemma {:induction false} CountZero(s: string, c: char)
    ensures Count(s, c) == 0 <==> forall k :: 0 <= k < |s| ==> s[k] != c
    decreases |s|
  {
    if |s| > 0 {
      CountZero(s[1..], c);
      assert forall k :: 1 <= k < |s| ==> s[k] == s[1..][k - 1];
    }
  }

  // -------------------------------------------------------------------- Find

  /** `pat` occurs in `s` at `i`. */
  predicate At(s: string, i: nat, pat: string) {
    i + |pat| <= |s| && s[i..i + |pat|] == pat
  }

  /** `s.find(pat, from)`: the first occurrence at or after `from`. */
  function Find(s: string, pat: string, from: nat): (r: Option<nat>)
    ensures r.Some? ==> from <= r.value && At(s, r.value, pat)
    ensures r.Some? ==> forall k :: from <= k < r.value ==> !At(s, k, pat)
    ensures r.None? ==> forall k :: from <= k <= |s| ==> !At(s, k, pat)
    decreases |s| - from
  {
    if from + |pat| > |s| then None
    else if At(s, from, pat) then Some(from)
    else Find(s, pat, from + 1)
  }

  /** `pat` occurs somewhere in `s`. */
  predicate Contains(s: string, pat: string) {
    Find(s, pat, 0).Some?
  }

  // --------------------------------------------------------- Replace all

  /** The loop `while ((p = s.find(pat, p)) != npos) { s.replace(p, |pat|,
      rep); p += |rep|; }`: every occurrence of `pat`, taken left to right
      without overlaps, is replaced, and the search goes on after the text
      just inserted. */
  function ReplaceAll(s: string, pat: string, rep: string): (r: string)
    requires |pat| > 0
    decreases |s|
  {
    if |s| < |pat| then s
    else if s[..|pat|] == pat then rep + ReplaceAll(s[|pat|..], pat, rep)
    else [s[0]] + ReplaceAll(s[1..], pat, rep)
  }

  /** Text that does not contain `pat` is left as it is. */
  lemma {:induction false} ReplaceAbsent(s: string, pat: string, rep: string)
    requires |pat| > 0
    requires forall k :: 0 <= k <= |s| ==> !At(s, k, pat)
    ensures ReplaceAll(s, pat, rep) == s
    decreases |s|
  {
    if |s| >= |pat| {
      assert !At(s, 0, pat);
      forall k | 0 <= k <= |s| - 1
        ensures !At(s[1..], k, pat)
      {
        assert !At(s, k + 1, pat);
        if k + |pat| <= |s| - 1 {
          assert s[1..][k..k + |pat|] == s[k + 1..k + 1 + |pat|];
        }
      }
      ReplaceAbsent(s[1..], pat, rep);
      assert s == [s[0]] + s[1..];
    }
  }

  /** When the pattern and its replacement hold a character equally often,
      replacing keeps that character's count. */
  lemma {:induction false} ReplaceKeepsCount(s: string, pat: string, rep: string, c: char)
    requires |pat| > 0 && Count(pat, c) == Count(rep, c)
    ensures Count(ReplaceAll(s, pat, rep), c) == Count(s, c)
    decreases |s|
  {
    if |s| >= |pat| {
      if s[..|pat|] == pat {
        ReplaceKeepsCount(s[|pat|..], pat, rep, c);
        CountAppend(rep, ReplaceAll(s[|pat|..], pat, rep), c);
        assert s == pat + s[|pat|..];
        CountAppend(pat, s[|pat|..], c);
      } else {
        ReplaceKeepsCount(s[1..], pat, rep, c);
        assert s == [s[0]] + s[1..];
        CountAppend([s[0]], s[1..], c);
        CountAppend([s[0]], ReplaceAll(s[1..], pat, rep), c);
      }
    }
  }

  // ------------------------------------------------------------- Split, join

  /** The pieces of `s` between occurrences of `sep`: one more than there
      are separators, empty pieces included. */
  function Split(s: string, sep: char): (r: seq<string>)
    ensures |r| == Count(s, sep) + 1
    ensures forall i, k :: 0 <= i < |r| && 0 <= k < |r[i]| ==> r[i][k] != sep
    decreases |s|
  {
    if |s| == 0 then [""]
    else
      var rest := Split(s[1..], sep);
      if s[0] == sep then [""] + rest
      else
        assert forall k :: 0 <= k < |[s[0]] + rest[0]| ==> ([s[0]] + rest[0])[k] == if k == 0 then s[0] else rest[0][k - 1];
        [[s[0]] + rest[0]] + rest[1..]
  }

  /** Pieces joined with `sep` between neighbours. */
  function Join(parts: seq<string>, sep: char): string
    requires |parts| > 0
  {
    if |parts| == 1 then parts[0] else parts[0] + [sep] + Join(parts[1..], sep)
  }

  /** Round trip: joining the pieces with the separator gives the text back. */
  lemma {:induction false} SplitJoin(s: string, sep: char)
    ensures Join(Split(s, sep), sep) == s
    decreases |s|
  {
    if |s| > 0 {
      SplitJoin(s[1..], sep);
      var rest := Split(s[1..], sep);
      if s[0] == sep {
        assert Split(s, sep) == [""] + rest;
        assert (([""] + rest)[1..]) == rest;
        assert s == "" + [sep] + s[1..];
      } else {
        var r := Split(s, sep);
        assert r == [[s[0]] + rest[0]] + rest[1..];
        if |rest| == 1 {
          assert s == [s[0]] + rest[0];
        } else {
          assert r[1..] == rest[1..];
          assert Join(rest, sep) == rest[0] + [sep] + Join(rest[1..], sep);
          assert s == [s[0]] + s[1..];
        }
      }
    }
  }

  /** Round trip the other way: splitting separator-free pieces joined with
      the separator gives the pieces back. */
  lemma {:induction false} JoinSplit(parts: seq<string>, sep: char)
    requires |parts| > 0
    requires forall i, k :: 0 <= i < |parts| && 0 <= k < |parts[i]| ==> parts[i][k] != sep
    ensures Split(Join(parts, sep), sep) == parts
    decreases |parts|, |parts[0]|
  {
    if |parts| == 1 {
      NoSepSplit(parts[0], sep);
    } else if |parts[0]| == 0 {
      var s := Join(parts, sep);
      assert s == [sep] + Join(parts[1..], sep);
      assert s[1..] == Join(parts[1..], sep);
      JoinSplit(parts[1..], sep);
      assert parts == [""] + parts[1..];
    } else {
      var p0 := parts[0];
      var shorter := [p0[1..]] + parts[1..];
      var s := Join(parts, sep);
      assert shorter[1..] == parts[1..];
      assert Join(shorter, sep) == p0[1..] + [sep] + Join(parts[1..], sep);
      assert s == [p0[0]] + Join(shorter, sep);
      assert s[1..] == Join(shorter, sep);
      JoinSplit(shorter, sep);
      assert [p0[0]] + p0[1..] == p0;
    }
  }

  lemma {:induction false} NoSepSplit(s: string, sep: char)
    requires forall k :: 0 <= k < |s| ==> s[k] != sep
    ensures Split(s, sep) == [s]
    decreases |s|
  {
    if |s| > 0 {
      NoSepSplit(s[1..], sep);
      assert [s[0]] + s[1..] == s;
    }
  }
}
