/** The java.lang.String operations the launcher relies on: indexOf and split(" "). */
module JavaText {

  predicate StartsWith(s: string, prefix: string) {
    |prefix| <= |s| && s[..|prefix|] == prefix
  }

  /** `p` occurs in `s` starting at index `i`. */
  predicate OccursAt(s: string, p: string, i: int) {
    0 <= i && i + |p| <= |s| && s[i..i + |p|] == p
  }

  ghost predicate Contains(s: string, p: string) {
    exists i :: OccursAt(s, p, i)
  }

  /** String.indexOf(p): the first index at which `p` occurs in `s`, or -1. */
  function IndexOf(s: string, p: string): (r: int)
    ensures -1 <= r
    ensures r >= 0 ==> OccursAt(s, p, r)
    ensures r >= 0 ==> forall j :: 0 <= j < r ==> !OccursAt(s, p, j)
    ensures r == -1 ==> forall j :: !OccursAt(s, p, j)
  {
    IndexFrom(s, p, 0)
  }

  function IndexFrom(s: string, p: string, from: nat): (r: int)
    requires from <= |s|
    ensures r == -1 || from <= r
    ensures r >= 0 ==> OccursAt(s, p, r)
    ensures r >= 0 ==> forall j :: from <= j < r ==> !OccursAt(s, p, j)
    ensures r == -1 ==> forall j :: from <= j ==> !OccursAt(s, p, j)
    decreases |s| - from
  {
    if from + |p| > |s| then -1
    else if s[from..from + |p|] == p then from
    else IndexFrom(s, p, from + 1)
  }

  /** indexOf is positive exactly when `p` occurs in `s` but `s` does not start with it. */
  lemma IndexOfPositive(s: string, p: string)
    ensures IndexOf(s, p) > 0 <==> Contains(s, p) && !StartsWith(s, p)
  {
    var r := IndexOf(s, p);
    assert StartsWith(s, p) <==> OccursAt(s, p, 0);
    if r > 0 {
      assert OccursAt(s, p, r);
    } else if r == 0 {
      assert OccursAt(s, p, 0);
    }
  }

  /** The pieces of `s` between single spaces, empty pieces included; there is always
      one more piece than there are spaces. */
  function SplitAll(s: string): (parts: seq<string>)
    ensures |parts| >= 1
    ensures forall k :: 0 <= k < |parts| ==> ' ' !in parts[k]
  {
    if |s| == 0 then [""]
    else
      var rest := SplitAll(s[1..]);
      if s[0] == ' ' then [""] + rest
      else [[s[0]] + rest[0]] + rest[1..]
  }

  /** String.join(" ", parts). */
  function Join(parts: seq<string>): string
    requires |parts| >= 1
  {
    if |parts| == 1 then parts[0] else parts[0] + " " + Join(parts[1..])
  }

  /** Joining the pieces with single spaces gives back the string. */
  lemma {:induction false} JoinSplitAll(s: string)
    ensures Join(SplitAll(s)) == s
  {
    if |s| > 0 {
      var rest := SplitAll(s[1..]);
      JoinSplitAll(s[1..]);
      if s[0] == ' ' {
        assert SplitAll(s)[1..] == rest;
        assert s == [s[0]] + s[1..];
      } else {
        var parts := SplitAll(s);
        assert parts[0] == [s[0]] + rest[0];
        assert parts[1..] == rest[1..];
        if |rest| == 1 {
          assert Join(parts) == [s[0]] + rest[0];
        } else {
          assert Join(parts) == [s[0]] + rest[0] + " " + Join(rest[1..]);
          assert Join(rest) == rest[0] + " " + Join(rest[1..]);
        }
        assert s == [s[0]] + s[1..];
      }
    }
  }

  /** Drops the empty strings at the end of `parts`. */
  function DropTrailingEmpty(parts: seq<string>): (r: seq<string>)
    ensures r <= parts
    ensures forall k :: |r| <= k < |parts| ==> parts[k] == ""
    ensures r == [] || r[|r| - 1] != ""
  {
    if parts == [] then []
    else if parts[|parts| - 1] == "" then DropTrailingEmpty(parts[..|parts| - 1])
    else parts
  }

  /** String.split(" ") with its default limit of 0: when `s` holds no space the
      result is `[s]` (even for ""); otherwise it is the pieces between single spaces
      with the empty pieces at the end removed, so a string of spaces alone gives []. */
  function Split(s: string): (r: seq<string>)
    ensures ' ' !in s ==> r == [s]
    ensures ' ' in s ==> r <= SplitAll(s) && r == DropTrailingEmpty(SplitAll(s))
    ensures ' ' in s ==> forall k :: |r| <= k < |SplitAll(s)| ==> SplitAll(s)[k] == ""
    ensures ' ' in s ==> r == [] || r[|r| - 1] != ""
    ensures forall k :: 0 <= k < |r| ==> ' ' !in r[k]
  {
    if ' ' !in s then [s] else DropTrailingEmpty(SplitAll(s))
  }

  function Spaces(n: nat): string {
    seq(n, _ => ' ')
  }

  /** What split(" ") drops are empty pieces only: the string is the kept pieces joined
      by single spaces, followed by one space per dropped piece. */
  lemma SplitKeepsAllText(s: string)
    requires ' ' in s && Split(s) != []
    ensures s == Join(Split(s)) + Spaces(|SplitAll(s)| - |Split(s)|)
  {
    var all := SplitAll(s);
    var r := Split(s);
    JoinSplitAll(s);
    JoinDroppedEmpty(all, |r|);
    assert all[..|r|] == r;
  }

  /** Joining a list whose elements from index `m` on are empty equals joining the first
      `m` elements and adding one space per dropped element. */
  lemma {:induction false} JoinDroppedEmpty(parts: seq<string>, m: nat)
    requires 1 <= m <= |parts|
    requires forall k :: m <= k < |parts| ==> parts[k] == ""
    ensures Join(parts) == Join(parts[..m]) + Spaces(|parts| - m)
    decreases |parts|
  {
    if m == |parts| {
      assert parts[..m] == parts;
    } else if m == 1 {
      if |parts| > 1 {
        var tail := parts[1..];
        JoinDroppedEmpty'(tail);
        assert Join(parts) == parts[0] + " " + Join(tail);
        assert parts[..1] == [parts[0]];
      }
    } else {
      var tail := parts[1..];
      JoinDroppedEmpty(tail, m - 1);
      assert tail[..m - 1] == parts[1..m];
      assert parts[..m][1..] == parts[1..m];
      assert Join(parts[..m]) == parts[0] + " " + Join(parts[1..m]);
    }
  }

  /** A list of empty strings joins to one space fewer than it has elements. */
  lemma {:induction false} JoinDroppedEmpty'(parts: seq<string>)
    requires |parts| >= 1
    requires forall k :: 0 <= k < |parts| ==> parts[k] == ""
    ensures Join(parts) == Spaces(|parts| - 1)
  {
    if |parts| > 1 {
      JoinDroppedEmpty'(parts[1..]);
    }
  }
}
