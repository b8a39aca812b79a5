/** Values shared by every part of the launcher model: Java's null, the exceptions
    the launcher raises or lets through, and how a top-level call ends. */
module Common {

  /** A Java reference that may be null. */
  datatype Option<T> = None | Some(value: T) {
    function GetOr(default: T): T {
      if Some? then value else default
    }
  }

  /** The Java exceptions that the modelled code raises or passes on. */
  datatype Exception =
    | NullPointer               // java.lang.NullPointerException
    | FileNotFound(path: string) // java.io.FileNotFoundException
    | IOError                   // java.io.IOException, e.g. Runtime.exec cannot start a process
    | ParseError                // org.apache.commons.cli.ParseException

  /** The result of a Java call that returns a value or throws. */
  datatype Result<T> = Ok(value: T) | Throw(error: Exception)

  /** How a call of `execute` or `executeImpl` ends: it returns a boolean, it throws,
      or it stops the whole JVM with System.exit. */
  datatype Completion = Returned(value: bool) | Threw(error: Exception) | Exited(status: int)
}

/** The java.util.List operations the listener registry relies on. */
module Lists {

  predicate NoDuplicates<T(==)>(s: seq<T>) {
    forall i, j :: 0 <= i < j < |s| ==> s[i] != s[j]
  }

  /** List.indexOf(Object) on a list holding `x`: the index of its first occurrence. */
  function FirstIndex<T(==)>(s: seq<T>, x: T): (i: nat)
    requires x in s
    ensures i < |s| && s[i] == x && x !in s[..i]
  {
    if s[0] == x then 0
    else
      assert x in s[1..] by {
        assert s == [s[0]] + s[1..];
      }
      var j := FirstIndex(s[1..], x);
      assert s[..j + 1] == [s[0]] + s[1..][..j];
      j + 1
  }

  /** List.remove(Object): removes the first element equal to `x`, if there is one;
      the other elements keep their order. */
  function RemoveFirst<T(==)>(s: seq<T>, x: T): (r: seq<T>)
    ensures x !in s ==> r == s
    ensures x in s ==> |r| == |s| - 1
    ensures x in s ==> r == s[..FirstIndex(s, x)] + s[FirstIndex(s, x) + 1..]
    ensures multiset(r) == multiset(s) - multiset{x}
  {
    if s == [] then []
    else if s[0] == x then
      RemoveFirstHead(s, x);
      s[1..]
    else
      var rest := RemoveFirst(s[1..], x);
      RemoveFirstCons(s, x, rest);
      RemoveFirstConsMultiset(s, x, rest);
      [s[0]] + rest
  }

  lemma RemoveFirstConsMultiset<T>(s: seq<T>, x: T, rest: seq<T>)
    requires s != [] && s[0] != x
    requires multiset(rest) == multiset(s[1..]) - multiset{x}
    ensures multiset([s[0]] + rest) == multiset(s) - multiset{x}
  {
    assert s == [s[0]] + s[1..];
    assert multiset(s) == multiset{s[0]} + multiset(s[1..]);
  }

  /** RemoveFirst on a list that starts with `x`. */
  lemma RemoveFirstHead<T>(s: seq<T>, x: T)
    requires s != [] && s[0] == x
    ensures FirstIndex(s, x) == 0 && s[1..] == s[..0] + s[1..]
    ensures multiset(s[1..]) == multiset(s) - multiset{x}
  {
    assert s == [s[0]] + s[1..];
  }

  /** The step of RemoveFirst past a first element that is not `x`. */
  lemma RemoveFirstCons<T>(s: seq<T>, x: T, rest: seq<T>)
    requires s != [] && s[0] != x
    requires x !in s[1..] ==> rest == s[1..]
    requires x in s[1..] ==> rest == s[1..][..FirstIndex(s[1..], x)] + s[1..][FirstIndex(s[1..], x) + 1..]
    ensures x !in s ==> [s[0]] + rest == s
    ensures x in s ==> [s[0]] + rest == s[..FirstIndex(s, x)] + s[FirstIndex(s, x) + 1..]
  {
    assert s == [s[0]] + s[1..];
    if x in s[1..] {
      var j := FirstIndex(s[1..], x);
      assert FirstIndex(s, x) == j + 1;
      assert s[..j + 1] == [s[0]] + s[1..][..j];
      assert s[j + 2..] == s[1..][j + 1..];
    }
  }

  /** Only the first of two equal elements is removed, and the order of the rest is
      kept. */
  lemma RemoveFirstKeepsLaterOccurrence()
    ensures RemoveFirst([1, 2, 1], 1) == [2, 1]
  {
    assert FirstIndex([1, 2, 1], 1) == 0;
  }

  /** Removing never introduces an element. */
  lemma {:induction false} RemoveFirstSubset<T>(s: seq<T>, x: T, y: T)
    requires y in RemoveFirst(s, x)
    ensures y in s
  {
    if s != [] && s[0] != x && y != s[0] {
      assert y in RemoveFirst(s[1..], x);
      RemoveFirstSubset(s[1..], x, y);
    }
  }

  lemma TailNoDuplicates<T>(s: seq<T>)
    requires s != [] && NoDuplicates(s)
    ensures NoDuplicates(s[1..]) && s[0] !in s[1..]
  {
    var tail := s[1..];
    forall i, j | 0 <= i < j < |tail| ensures tail[i] != tail[j] {
      assert tail[i] == s[i + 1] && tail[j] == s[j + 1];
    }
    forall k | 0 <= k < |tail| ensures tail[k] != s[0] {
      assert tail[k] == s[k + 1];
    }
  }

  /** On a list without duplicates, removing `x` leaves no `x` behind and keeps the
      list free of duplicates. */
  lemma {:induction false} RemoveFirstFromDistinct<T>(s: seq<T>, x: T)
    requires NoDuplicates(s)
    ensures x !in RemoveFirst(s, x)
    ensures NoDuplicates(RemoveFirst(s, x))
  {
    if s != [] {
      TailNoDuplicates(s);
      var tail := s[1..];
      if s[0] != x {
        RemoveFirstFromDistinct(tail, x);
        var rest := RemoveFirst(tail, x);
        assert s[0] !in rest by {
          if s[0] in rest {
            RemoveFirstSubset(tail, x, s[0]);
          }
        }
        ConsFresh(s[0], rest);
      }
    }
  }

  lemma ConsFresh<T>(x: T, s: seq<T>)
    requires NoDuplicates(s) && x !in s
    ensures NoDuplicates([x] + s)
  {
    var r := [x] + s;
    forall i, j | 0 <= i < j < |r| ensures r[i] != r[j] {
      assert r[j] == s[j - 1];
      if i > 0 {
        assert r[i] == s[i - 1];
      }
    }
  }

  /** Removing an element that was appended to a list not holding it gives the list
      back. */
  lemma RemoveFirstAppended<T>(s: seq<T>, x: T)
    requires x !in s
    ensures RemoveFirst(s + [x], x) == s
  {
    var t := s + [x];
    assert forall j :: 0 <= j < |s| ==> t[j] == s[j];
    assert FirstIndex(t, x) == |s|;
    assert t[..|s|] == s;
  }

  /** Appending an element that is not present keeps a list free of duplicates. */
  lemma AppendFresh<T>(s: seq<T>, x: T)
    requires NoDuplicates(s) && x !in s
    ensures NoDuplicates(s + [x])
  {
    var r := s + [x];
    forall i, j | 0 <= i < j < |r| ensures r[i] != r[j] {
      if j == |s| {
        assert r[i] == s[i];
      } else {
        assert r[i] == s[i] && r[j] == s[j];
      }
    }
  }
}
