/**
 The string functions of the Go library that the configuration and trace code rest on, and the
 trim-and-filter loop they share.
 */
module Text {
  /** The Unicode white space that TrimSpace removes. */
  predicate IsSpace(c: char) {
    var n := c as int;
    || c == ' ' || 9 <= n <= 13 || n == 0x85 || n == 0xA0 || n == 0x1680 || 0x2000 <= n <= 0x200A
    || n == 0x2028 || n == 0x2029 || n == 0x202F || n == 0x205F || n == 0x3000
  }

  ghost predicate Blank(s: string) {
    forall i :: 0 <= i < |s| ==> IsSpace(s[i])
  }

  ghost predicate Trimmed(s: string) {
    s != "" ==> !IsSpace(s[0]) && !IsSpace(s[|s| - 1])
  }

  function TrimLeft(s: string): string {
    if s != "" && IsSpace(s[0]) then TrimLeft(s[1..]) else s
  }

  function TrimRight(s: string): string {
    if s != "" && IsSpace(s[|s| - 1]) then TrimRight(s[..|s| - 1]) else s
  }

  function TrimSpace(s: string): string {
    TrimRight(TrimLeft(s))
  }

  function Split(s: string, sep: char): (parts: seq<string>)
    ensures parts != []
  {
    if s == "" then [""]
    else
      var rest := Split(s[1..], sep);
      if s[0] == sep then [""] + rest else [[s[0]] + rest[0]] + rest[1..]
  }

  function Join(parts: seq<string>, sep: char): string {
    if parts == [] then ""
    else if |parts| == 1 then parts[0]
    else parts[0] + [sep] + Join(parts[1..], sep)
  }

  /** Trims every part and drops the ones with nothing left. */
  function Clean(parts: seq<string>): seq<string> {
    if parts == [] then []
    else
      var part, rest := TrimSpace(parts[0]), Clean(parts[1..]);
      if part != "" then [part] + rest else rest
  }

  /** Separator-free. */
  ghost predicate Without(s: string, sep: char) {
    sep !in s
  }

  /** Nothing left to trim and nothing to drop. */
  ghost predicate Solid(parts: seq<string>) {
    forall i :: 0 <= i < |parts| ==> parts[i] != "" && Trimmed(parts[i])
  }

  ghost predicate AllWithout(parts: seq<string>, sep: char) {
    forall i :: 0 <= i < |parts| ==> Without(parts[i], sep)
  }

  // Trimming ---------------------------------------------------------------------------------------

  lemma {:induction false} TrimLeftBlank(l: string, s: string)
    requires Blank(l) && (s != "" ==> !IsSpace(s[0]))
    ensures TrimLeft(l + s) == s
  {
    if l == "" {
      assert l + s == s;
    } else {
      assert (l + s)[1..] == l[1..] + s;
      TrimLeftBlank(l[1..], s);
    }
  }

  lemma {:induction false} TrimRightBlank(s: string, r: string)
    requires Blank(r) && (s != "" ==> !IsSpace(s[|s| - 1]))
    ensures TrimRight(s + r) == s
  {
    if r == "" {
      assert s + r == s;
    } else {
      assert (s + r)[..|s + r| - 1] == s + r[..|r| - 1];
      TrimRightBlank(s, r[..|r| - 1]);
    }
  }

  lemma BlankTrimsAway(s: string)
    requires Blank(s)
    ensures TrimSpace(s) == ""
  {
    assert s + "" == s;
    TrimLeftBlank(s, "");
  }

  /** Trimming removes white space around the text, and only that. */
  lemma TrimSpaceExact(l: string, s: string, r: string)
    requires Blank(l) && Blank(r) && Trimmed(s)
    ensures TrimSpace(l + s + r) == s
  {
    if s == "" {
      BlankTrimsAway(l + s + r);
    } else {
      assert l + s + r == l + (s + r);
      TrimLeftBlank(l, s + r);
      TrimRightBlank(s, r);
    }
  }

  lemma {:induction false} TrimLeftParts(s: string) returns (l: string)
    ensures s == l + TrimLeft(s) && Blank(l)
    ensures TrimLeft(s) != "" ==> !IsSpace(TrimLeft(s)[0])
  {
    if s == "" || !IsSpace(s[0]) {
      l := "";
    } else {
      l := TrimLeftParts(s[1..]);
      l := [s[0]] + l;
    }
  }

  lemma {:induction false} TrimRightParts(s: string) returns (r: string)
    ensures s == TrimRight(s) + r && Blank(r)
    ensures TrimRight(s) != "" ==> !IsSpace(TrimRight(s)[|TrimRight(s)| - 1])
  {
    if s == "" || !IsSpace(s[|s| - 1]) {
      r := "";
    } else {
      r := TrimRightParts(s[..|s| - 1]);
      r := r + [s[|s| - 1]];
    }
  }

  /** Every text is its trimmed self between two blanks. */
  lemma TrimSpaceParts(s: string) returns (l: string, r: string)
    ensures s == l + TrimSpace(s) + r && Blank(l) && Blank(r) && Trimmed(TrimSpace(s))
  {
    l := TrimLeftParts(s);
    r := TrimRightParts(TrimLeft(s));
    if TrimSpace(s) != "" {
      assert TrimSpace(s)[0] == TrimLeft(s)[0];
    }
  }

  lemma TrimmedStays(s: string)
    requires Trimmed(s)
    ensures TrimSpace(s) == s
  {
    assert "" + s + "" == s;
    TrimSpaceExact("", s, "");
  }

  /**
   Which characters trimming removes: these from either end, and a text that begins and ends with none
   of them is left as it is.
   */
  lemma TrimSpaceCharacters(c: char, d: char, s: string)
    ensures
      var spaces := {
        '\t', '\n', '\U{0B}', '\U{0C}', '\r', ' ', '\U{85}', '\U{A0}', '\U{1680}',
        '\U{2000}', '\U{2001}', '\U{2002}', '\U{2003}', '\U{2004}', '\U{2005}', '\U{2006}', '\U{2007}',
        '\U{2008}', '\U{2009}', '\U{200A}', '\U{2028}', '\U{2029}', '\U{202F}', '\U{205F}', '\U{3000}'};
      && (c in spaces ==> TrimSpace([c] + s) == TrimSpace(s) == TrimSpace(s + [c]))
      && (c !in spaces && d !in spaces ==> TrimSpace([c]) == [c] && TrimSpace([c] + s + [d]) == [c] + s + [d])
  {
    if IsSpace(c) {
      var l, r := TrimSpaceParts(s);
      var core := TrimSpace(s);
      assert [c] + s == ([c] + l) + core + r && s + [c] == l + core + (r + [c]);
      TrimSpaceExact([c] + l, core, r);
      TrimSpaceExact(l, core, r + [c]);
    } else if !IsSpace(d) {
      TrimmedStays([c]);
      TrimmedStays([c] + s + [d]);
    }
  }

  lemma TrimSpaceEmptyIff(s: string)
    ensures TrimSpace(s) == "" <==> Blank(s)
  {
    var l, r := TrimSpaceParts(s);
    if Blank(s) { BlankTrimsAway(s); }
  }

  lemma TrimSpaceWithout(s: string, sep: char)
    requires Without(s, sep)
    ensures Without(TrimSpace(s), sep)
  {
    var l, r := TrimSpaceParts(s);
  }

  // Splitting and joining --------------------------------------------------------------------------

  lemma {:induction false} SplitWithout(s: string, sep: char)
    ensures AllWithout(Split(s, sep), sep)
  {
    if s == "" {
    } else {
      SplitWithout(s[1..], sep);
    }
  }

  lemma {:induction false} JoinSplit(s: string, sep: char)
    ensures Join(Split(s, sep), sep) == s
  {
    if s == "" {
    } else {
      JoinSplit(s[1..], sep);
      var rest := Split(s[1..], sep);
      if s[0] == sep {
        assert ([""] + rest)[1..] == rest;
      } else {
        var parts := [[s[0]] + rest[0]] + rest[1..];
        assert parts[1..] == rest[1..];
        assert Join(parts, sep) == [s[0]] + Join(rest, sep);
      }
    }
  }

  lemma {:induction false} SplitAtSeparator(a: string, b: string, sep: char)
    ensures Split(a + [sep] + b, sep) == Split(a, sep) + Split(b, sep)
  {
    var s := a + [sep] + b;
    if a == "" {
      assert s[1..] == b;
    } else {
      assert s[1..] == a[1..] + [sep] + b;
      SplitAtSeparator(a[1..], b, sep);
    }
  }

  lemma {:induction false} SplitWhole(s: string, sep: char)
    requires Without(s, sep)
    ensures Split(s, sep) == [s]
  {
    if s == "" {
    } else {
      SplitWhole(s[1..], sep);
      assert [s[0]] + s[1..] == s && s[0] in s;
    }
  }

  lemma {:induction false} SplitJoin(parts: seq<string>, sep: char)
    requires parts != [] && AllWithout(parts, sep)
    ensures Split(Join(parts, sep), sep) == parts
  {
    SplitWhole(parts[0], sep);
    if |parts| <= 1 {
    } else {
      SplitJoin(parts[1..], sep);
      SplitAtSeparator(parts[0], Join(parts[1..], sep), sep);
    }
  }

  lemma {:induction false} JoinAppend(a: seq<string>, b: seq<string>, sep: char)
    requires a != [] && b != []
    ensures Join(a + b, sep) == Join(a, sep) + [sep] + Join(b, sep)
  {
    assert (a + b)[1..] == a[1..] + b;
    if |a| <= 1 {
    } else {
      JoinAppend(a[1..], b, sep);
    }
  }

  // Cleaning ---------------------------------------------------------------------------------------

  lemma CleanOfOne(part: string)
    ensures Clean([part]) == if TrimSpace(part) == "" then [] else [TrimSpace(part)]
  {
    assert [part][1..] == [];
    assert Clean([part][1..]) == [];
  }

  lemma {:induction false} CleanAppend(a: seq<string>, b: seq<string>)
    ensures Clean(a + b) == Clean(a) + Clean(b)
  {
    if a == [] {
      assert a + b == b;
    } else {
      assert (a + b)[1..] == a[1..] + b;
      CleanAppend(a[1..], b);
    }
  }

  lemma {:induction false} CleanIsSolid(parts: seq<string>)
    ensures Solid(Clean(parts))
  {
    if parts == [] {
    } else {
      CleanIsSolid(parts[1..]);
      var l, r := TrimSpaceParts(parts[0]);
    }
  }

  lemma {:induction false} CleanKeepsSolid(parts: seq<string>)
    requires Solid(parts)
    ensures Clean(parts) == parts
  {
    if parts == [] {
    } else {
      TrimmedStays(parts[0]);
      CleanKeepsSolid(parts[1..]);
    }
  }

  lemma {:induction false} CleanWithout(parts: seq<string>, sep: char)
    requires AllWithout(parts, sep)
    ensures AllWithout(Clean(parts), sep)
  {
    if parts == [] {
    } else {
      TrimSpaceWithout(parts[0], sep);
      CleanWithout(parts[1..], sep);
    }
  }

  /** Joining solid parts leaves nothing to trim, and something unless there were none. */
  lemma {:induction false} JoinIsSolid(parts: seq<string>, sep: char)
    requires Solid(parts)
    ensures Trimmed(Join(parts, sep))
    ensures Join(parts, sep) == "" <==> parts == []
  {
    if |parts| <= 1 {
    } else {
      JoinIsSolid(parts[1..], sep);
    }
  }
}
