/** The C string routines the sysfs handlers lean on, as functions on NUL-free strings,
    and the laws that make splitting and joining inverse to each other. */
module CStrings {
  import opened Basics

  /** `isspace` of the kernel's character table. */
  predicate IsSpace(c: char) {
    c == ' ' || '\t' <= c <= '\r' || c == '\U{a0}'
  }

  /** What `strlcpy` leaves in a buffer of `size` bytes. */
  function Strlcpy(s: string, size: nat): (r: string)
    requires 0 < size
    ensures |r| < size && r <= s
    ensures |s| < size ==> r == s
  {
    if |s| < size then s else s[..size - 1]
  }

  function TrimLeft(s: string): string {
    if s != [] && IsSpace(s[0]) then TrimLeft(s[1..]) else s
  }

  function TrimRight(s: string): string {
    if s != [] && IsSpace(s[|s| - 1]) then TrimRight(s[..|s| - 1]) else s
  }

  /** `strim`: white space removed at both ends, the trailing part first. */
  function Strim(s: string): string {
    TrimLeft(TrimRight(s))
  }

  lemma {:induction false} TrimShorter(s: string)
    ensures |TrimLeft(s)| <= |s| && |TrimRight(s)| <= |s|
    decreases |s|
  {
    if s != [] {
      TrimShorter(s[1..]);
      TrimShorter(s[..|s| - 1]);
    }
  }

  lemma StrimShorter(s: string)
    ensures |Strim(s)| <= |s|
  {
    TrimShorter(s);
    TrimShorter(TrimRight(s));
  }

  /** Position of the first `c`, or the length when there is none. */
  function IndexOf(s: string, c: char): (i: nat)
    ensures i <= |s|
    ensures i < |s| ==> s[i] == c
    ensures c !in s[..i]
    ensures i == |s| <==> c !in s
  {
    if s == [] || s[0] == c then 0 else
      var i := 1 + IndexOf(s[1..], c);
      assert s[..i] == [s[0]] + s[1..][..i - 1];
      assert s == [s[0]] + s[1..];
      i
  }

  /** All the tokens that repeated `strsep` calls cut from `s`; adjacent separators
      delimit an empty token, and the empty string is one empty token. */
  function Split(s: string, c: char): (parts: seq<string>)
    ensures |parts| >= 1
    decreases |s|
  {
    var i := IndexOf(s, c);
    if i == |s| then [s] else [s[..i]] + Split(s[i + 1..], c)
  }

  function Join(parts: seq<string>, c: char): string {
    if parts == [] then ""
    else if |parts| == 1 then parts[0]
    else parts[0] + [c] + Join(parts[1..], c)
  }

  /** The tokens still to come when the string pointer is `s`, NULL after the last token. */
  function SplitRest(s: Option<string>, c: char): seq<string> {
    match s
    case None => []
    case Some(t) => Split(t, c)
  }

  lemma SplitAt(s: string, c: char)
    ensures var i := IndexOf(s, c); Split(s, c) == if i == |s| then [s] else [s[..i]] + Split(s[i + 1..], c)
  {
  }

  /** One `strsep` call on a non-NULL pointer: the token, and the advanced pointer. */
  function Strsep(s: string, c: char): (r: (string, Option<string>))
    ensures Split(s, c) == [r.0] + SplitRest(r.1, c)
    ensures r.1.Some? ==> |r.1.value| < |s|
  {
    var i := IndexOf(s, c);
    SplitAt(s, c);
    if i == |s| then (s, None) else (s[..i], Some(s[i + 1..]))
  }

  lemma SplitRestIs(s: string, c: char)
    ensures SplitRest(Some(s), c) == Split(s, c) && SplitRest(None, c) == []
  {
  }

  lemma {:induction false} JoinSnoc(parts: seq<string>, part: string, c: char)
    ensures Join(parts + [part], c) == if parts == [] then part else Join(parts, c) + [c] + part
    decreases |parts|
  {
    if |parts| > 1 {
      JoinSnoc(parts[1..], part, c);
      assert (parts + [part])[1..] == parts[1..] + [part];
    }
  }

  /** One more part with its separator behind it. */
  lemma JoinClosed(start: string, parts: seq<string>, part: string, c: char)
    ensures start + Join(parts + [part], c) + [c]
         == (if parts == [] then start else start + Join(parts, c) + [c]) + part + [c]
  {
    JoinSnoc(parts, part, c);
    hide Join;
    var j := Join(parts, c);
    assert start + (j + [c] + part) + [c] == start + j + [c] + part + [c];
  }

  predicate Free(s: string, c: char) { c !in s }

  lemma SplitFree(s: string, c: char)
    requires Free(s, c)
    ensures Split(s, c) == [s]
  {
  }

  /** Splitting undoes joining when no part contains the separator. */
  lemma {:induction false} SplitJoin(parts: seq<string>, c: char)
    requires |parts| >= 1
    requires forall p | p in parts :: Free(p, c)
    ensures Split(Join(parts, c), c) == parts
    decreases |parts|
  {
    if |parts| == 1 {
      assert Free(parts[0], c);
    } else {
      var head, tail := parts[0], Join(parts[1..], c);
      var s := head + [c] + tail;
      assert Free(head, c);
      var i := IndexOf(s, c);
      assert s[|head|] == c;
      assert i == |head|;
      assert s[..i] == head && s[i + 1..] == tail;
      SplitJoin(parts[1..], c);
    }
  }

  /** A non-empty string that starts and ends outside white space. */
  predicate Trimmed(s: string) {
    s != [] && !IsSpace(s[0]) && !IsSpace(s[|s| - 1])
  }

  lemma StrimLine(s: string)
    requires Trimmed(s)
    ensures Strim(s) == s && Strim(s + "\n") == s
  {
    var line := s + "\n";
    assert line[..|line| - 1] == s;
    assert IsSpace(line[|line| - 1]);
  }

  predicate Blank(s: string) { forall c | c in s :: IsSpace(c) }

  lemma {:induction false} TrimLeftExact(s: string) returns (a: string)
    ensures s == a + TrimLeft(s) && Blank(a)
    ensures TrimLeft(s) != [] ==> !IsSpace(TrimLeft(s)[0])
    decreases |s|
  {
    a := [];
    if s != [] && IsSpace(s[0]) {
      var rest := TrimLeftExact(s[1..]);
      a := [s[0]] + rest;
    }
  }

  lemma {:induction false} TrimRightExact(s: string) returns (b: string)
    ensures s == TrimRight(s) + b && Blank(b)
    ensures var r := TrimRight(s); r != [] ==> !IsSpace(r[|r| - 1])
    decreases |s|
  {
    b := [];
    if s != [] && IsSpace(s[|s| - 1]) {
      var rest := TrimRightExact(s[..|s| - 1]);
      b := rest + [s[|s| - 1]];
    }
  }

  /** `strim` removes blanks at both ends, all of them and nothing else. */
  lemma StrimExactly(s: string) returns (a: string, b: string)
    ensures s == a + Strim(s) + b && Blank(a) && Blank(b)
    ensures Strim(s) == [] || Trimmed(Strim(s))
  {
    b := TrimRightExact(s);
    a := TrimLeftExact(TrimRight(s));
  }

  /** The tokens are the parts between the separators: joined they are the text, and none holds one. */
  lemma {:induction false} SplitParts(s: string, c: char)
    ensures Join(Split(s, c), c) == s && forall p | p in Split(s, c) :: Free(p, c)
    decreases |s|
  {
    var i := IndexOf(s, c);
    if i < |s| {
      SplitParts(s[i + 1..], c);
      var rest := Split(s[i + 1..], c);
      assert Split(s, c)[1..] == rest;
      assert s == s[..i] + [c] + s[i + 1..];
    }
  }

  lemma {:induction false} JoinTrimmed(parts: seq<string>, c: char)
    requires |parts| >= 1
    requires forall p | p in parts :: Trimmed(p)
    ensures Trimmed(Join(parts, c))
    decreases |parts|
  {
    assert Trimmed(parts[0]);
    if |parts| > 1 {
      JoinTrimmed(parts[1..], c);
    }
  }

  lemma {:induction false} JoinFree(parts: seq<string>, c: char, d: char)
    requires c != d
    requires forall p | p in parts :: Free(p, d)
    ensures Free(Join(parts, c), d)
    decreases |parts|
  {
    if parts != [] {
      assert Free(parts[0], d);
      JoinFree(parts[1..], c, d);
    }
  }
}
