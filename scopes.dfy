/**
 * The scope claim is a single string: the requested scopes joined with one
 * ASCII space (`string.Join(" ", scopes)`), and read back with
 * `Split(' ')`, which splits at every space and keeps empty pieces.
 */
module Scopes {

  const SEPARATOR: char := ' '

  /** Position of the first `c` in `s`, or `|s|` when there is none. */
  function IndexOf(s: string, c: char): (i: nat)
    ensures i <= |s|
    ensures i < |s| ==> s[i] == c
    ensures forall k :: 0 <= k < i ==> s[k] != c
  {
    if |s| == 0 then 0
    else if s[0] == c then 0
    else 1 + IndexOf(s[1..], c)
  }

  /** `string.Join(sep, parts)`: the parts in order, one separator between neighbours. */
  function Join(parts: seq<string>, sep: char): (s: string)
    ensures |parts| == 0 ==> s == ""
    ensures |parts| >= 1 ==> parts[0] <= s
  {
    if |parts| == 0 then ""
    else if |parts| == 1 then parts[0]
    else parts[0] + [sep] + Join(parts[1..], sep)
  }

  /**
   * `s.Split(sep)` without options: every occurrence of `sep` ends a piece,
   * empty pieces are kept, so there is always at least one piece and no
   * piece contains the separator.
   */
  function Split(s: string, sep: char): (parts: seq<string>)
    ensures |parts| >= 1
    decreases |s|
  {
    var i := IndexOf(s, sep);
    if i == |s| then [s] else [s[..i]] + Split(s[i + 1..], sep)
  }

  /** No piece of a split holds the separator. */
  lemma {:induction false} SplitPiecesLackSeparator(s: string, sep: char)
    ensures forall p :: p in Split(s, sep) ==> sep !in p
    decreases |s|
  {
    var i := IndexOf(s, sep);
    assert forall k :: 0 <= k < i ==> s[..i][k] != sep;
    if i < |s| {
      SplitPiecesLackSeparator(s[i + 1..], sep);
    }
  }

  /** The scope set a scope claim requests: `new HashSet<string>(value.Split(' '))`. */
  function ScopeSet(value: string): (requested: set<string>)
    ensures forall p :: p in requested ==> SEPARATOR !in p
    ensures SEPARATOR !in value ==> requested == {value}
  {
    SplitPiecesLackSeparator(value, SEPARATOR);
    assert SEPARATOR !in value ==> Split(value, SEPARATOR) == [value] by {
      if SEPARATOR !in value {
        IndexOfAbsent(value, SEPARATOR);
      }
    }
    set p | p in Split(value, SEPARATOR)
  }

  lemma IndexOfAbsent(s: string, c: char)
    requires c !in s
    ensures IndexOf(s, c) == |s|
  {
  }

  /** In `a + [sep] + rest` with no separator in `a`, the first separator follows `a`. */
  lemma FirstSeparatorAfter(a: string, sep: char, rest: string)
    requires sep !in a
    ensures IndexOf(a + [sep] + rest, sep) == |a|
  {
    var s := a + [sep] + rest;
    forall k | 0 <= k < |a|
      ensures s[k] != sep
    {
      assert s[k] == a[k];
    }
    assert s[|a|] == sep;
  }

  /** Splitting a joined list gives the list back when no part holds the separator. */
  lemma {:induction false} SplitJoin(parts: seq<string>, sep: char)
    requires |parts| >= 1
    requires forall p :: p in parts ==> sep !in p
    ensures Split(Join(parts, sep), sep) == parts
  {
    if |parts| == 1 {
      IndexOfAbsent(parts[0], sep);
    } else {
      var head, rest := parts[0], Join(parts[1..], sep);
      var s := head + [sep] + rest;
      assert head in parts;
      FirstSeparatorAfter(head, sep, rest);
      assert s[..|head|] == head;
      assert s[|head| + 1..] == rest;
      assert Split(s, sep) == [head] + Split(rest, sep);
      SplitJoin(parts[1..], sep);
      assert parts == [head] + parts[1..];
    }
  }

  /** Joining the pieces of a split gives the original string back. */
  lemma {:induction false} JoinSplit(s: string, sep: char)
    ensures Join(Split(s, sep), sep) == s
    decreases |s|
  {
    var i := IndexOf(s, sep);
    if i < |s| {
      var head, rest := s[..i], s[i + 1..];
      var tail := Split(rest, sep);
      var parts := [head] + tail;
      assert Split(s, sep) == parts;
      assert |parts| >= 2 && parts[0] == head && parts[1..] == tail;
      assert Join(parts, sep) == head + [sep] + Join(tail, sep);
      JoinSplit(rest, sep);
      assert s[i] == sep;
      assert s == head + [sep] + rest;
    }
  }

  /**
   * The scope set a joined list of names requests is exactly the set of
   * those names, provided no name holds the separator (empty names allowed).
   */
  lemma {:induction false} ScopeSetOfJoin(scopes: seq<string>)
    requires |scopes| >= 1
    requires forall p :: p in scopes ==> SEPARATOR !in p
    ensures ScopeSet(Join(scopes, SEPARATOR)) == set p | p in scopes
  {
    SplitJoin(scopes, SEPARATOR);
  }

  /** Whatever string the scope claim holds, it requests at least one scope. */
  lemma ScopeSetNonEmpty(value: string)
    ensures ScopeSet(value) != {}
  {
    var parts := Split(value, SEPARATOR);
    assert parts[0] in ScopeSet(value);
  }
}
