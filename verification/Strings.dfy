/** Finding, splitting, joining and lower-casing (ASCII), as JavaScript's string methods do. */
module Strings {
  import opened Options

  function LowerChar(c: char): char { if 'A' <= c <= 'Z' then (c as int + 32) as char else c }

  function Lower(s: string): string { seq(|s|, i requires 0 <= i < |s| => LowerChar(s[i])) }

  function IndexOf(s: string, c: char): (i: Option<nat>)
    ensures i.None? <==> c !in s
    ensures i.Some? ==> i.value < |s| && s[i.value] == c && c !in s[..i.value]
  {
    if s == "" then None
    else if s[0] == c then Some(0)
    else
      var i := IndexOf(s[1..], c);
      if i.None? then None
      else assert s[..i.value + 1] == [s[0]] + s[1..][..i.value]; Some(i.value + 1)
  }

  lemma {:induction false} IndexOfFirst(front: string, c: char, rest: string)
    requires c !in front
    ensures IndexOf(front + [c] + rest, c) == Some(|front|)
    decreases |front|
  {
    var s := front + [c] + rest;
    if front == "" {
      assert s[0] == c;
    } else {
      assert s[1..] == front[1..] + [c] + rest;
      IndexOfFirst(front[1..], c, rest);
    }
  }

  function Split(s: string, c: char): (parts: seq<string>)
    ensures parts != [] && forall i :: 0 <= i < |parts| ==> c !in parts[i]
    decreases |s|
  {
    var i := IndexOf(s, c);
    if i.None? then [s] else [s[..i.value]] + Split(s[i.value + 1..], c)
  }

  function Join(parts: seq<string>, c: char): string {
    if parts == [] then "" else if |parts| == 1 then parts[0] else parts[0] + [c] + Join(parts[1..], c)
  }

  lemma {:induction false} SplitJoin(parts: seq<string>, c: char)
    requires parts != [] && forall i :: 0 <= i < |parts| ==> c !in parts[i]
    ensures Split(Join(parts, c), c) == parts
    decreases |parts|
  {
    if |parts| > 1 {
      var rest := Join(parts[1..], c);
      SplitJoin(parts[1..], c);
      IndexOfFirst(parts[0], c, rest);
      var s := parts[0] + [c] + rest;
      assert s[..|parts[0]|] == parts[0] && s[|parts[0]| + 1..] == rest;
      assert parts == [parts[0]] + parts[1..];
    }
  }

  lemma {:induction false} JoinHas(parts: seq<string>, c: char, x: char)
    requires |parts| > 1
    ensures x in Join(parts, c) <==> x == c || exists i :: 0 <= i < |parts| && x in parts[i]
    decreases |parts|
  {
    var rest := Join(parts[1..], c);
    if |parts| > 2 {
      JoinHas(parts[1..], c, x);
      if i :| 0 <= i < |parts[1..]| && x in parts[1..][i] { assert x in parts[i + 1]; }
      if i :| 0 <= i < |parts| && x in parts[i] && i > 0 { assert x in parts[1..][i - 1]; }
    } else {
      assert rest == parts[1];
    }
  }

  lemma JoinMore(first: string, rest: seq<string>, c: char)
    requires rest != []
    ensures Join([first] + rest, c) == first + [c] + Join(rest, c)
  {
    assert ([first] + rest)[1..] == rest;
  }

  lemma {:induction false} JoinSplit(s: string, c: char)
    ensures Join(Split(s, c), c) == s
    decreases |s|
  {
    hide IndexOf, Join;
    var i := IndexOf(s, c);
    if i.Some? {
      var rest := s[i.value + 1..];
      JoinSplit(rest, c);
      JoinMore(s[..i.value], Split(rest, c), c);
      assert s == s[..i.value] + [c] + rest;
    } else {
      JoinOne(s, c);
    }
  }

  lemma JoinOne(s: string, c: char)
    ensures Join([s], c) == s
  {
  }
}
