/** `bracket_match` of stacks.py: a single pass over the input that pushes
    characters on a stack and pops an opener when its closer arrives. The
    module proves that it accepts exactly the well-nested strings over
    `()[]{}`. */
module Brackets {
  import opened Stacks

  /** Each closing bracket mapped to its opener (stacks.py:73). */
  const Closers: map<char, char> := map[')' := '(', '}' := '{', ']' := '[']

  predicate IsOpener(c: char) {
    c == '(' || c == '[' || c == '{'
  }

  /** The three kinds of bracket pair. */
  datatype Kind = Round | Square | Curly

  function Open(k: Kind): char {
    match k
    case Round => '('
    case Square => '['
    case Curly => '{'
  }

  function Close(k: Kind): char {
    match k
    case Round => ')'
    case Square => ']'
    case Curly => '}'
  }

  /** The kind of an opening bracket. */
  function OpenerKind(c: char): (k: Kind)
    requires IsOpener(c)
    ensures Open(k) == c
  {
    if c == '(' then Round else if c == '[' then Square else Curly
  }

  /** The kind of a closing bracket: the table pairs it with its own opener. */
  function CloserKind(c: char): (k: Kind)
    requires c in Closers
    ensures Close(k) == c && Closers[c] == Open(k)
  {
    if c == ')' then Round else if c == ']' then Square else Curly
  }

  /** One iteration of the loop (stacks.py:75-81): a closing bracket pops
      when the stack is non-empty and its top is the matching opener; any
      other character is pushed. */
  function Step(stack: seq<char>, c: char): (r: seq<char>)
    ensures |r| == |stack| + 1 || |r| + 1 == |stack|
    ensures |r| < |stack| ==> c in Closers && IsOpener(stack[|stack| - 1])
    ensures |r| > |stack| ==> r[..|stack|] == stack
  {
    if stack != [] && c in Closers && stack[|stack| - 1] == Closers[c] then
      stack[..|stack| - 1]
    else
      stack + [c]
  }

  /** The stack after reading `s`, starting from `stack`. */
  function Scan(stack: seq<char>, s: string): (r: seq<char>)
    ensures |r| <= |stack| + |s|
    decreases |s|
  {
    if s == [] then stack else Step(Scan(stack, s[..|s| - 1]), s[|s| - 1])
  }

  /** Every step pushes or pops one character, so the characters read and
      the change in the stack's size have the same parity. */
  lemma {:induction false} ScanParity(stack: seq<char>, s: string)
    ensures (|stack| + |s| - |Scan(stack, s)|) % 2 == 0
    decreases |s|
  {
    if s != [] {
      ScanParity(stack, s[..|s| - 1]);
    }
  }

  /** What bracket_match returns: the stack is empty once the input is read. */
  predicate Matches(s: string): (b: bool)
    ensures b ==> |s| % 2 == 0
  {
    ScanParity([], s);
    Scan([], s) == []
  }

  /** A well-nested string as a tree: a group is an opener, a well-nested
      string, the matching closer, and then the rest of the string. */
  datatype Nest = Empty | Group(kind: Kind, inner: Nest, rest: Nest)

  function Text(n: Nest): string {
    match n
    case Empty => []
    case Group(k, inner, rest) => [Open(k)] + Text(inner) + [Close(k)] + Text(rest)
  }

  /** The strings whose brackets are properly matched. */
  ghost predicate WellNested(s: string) {
    exists n :: Text(n) == s
  }

  /** `b` placed after `a`. */
  function Append(a: Nest, b: Nest): (c: Nest)
    ensures Text(c) == Text(a) + Text(b)
  {
    match a
    case Empty => b
    case Group(k, inner, rest) => Group(k, inner, Append(rest, b))
  }

  /** Reading `u` and then `w` is reading `u + w`. */
  lemma {:induction false} ScanAppend(stack: seq<char>, u: string, w: string)
    ensures Scan(stack, u + w) == Scan(Scan(stack, u), w)
    decreases |w|
  {
    if w == [] {
      assert u + w == u;
    } else {
      var w', c := w[..|w| - 1], w[|w| - 1];
      assert (u + w)[..|u + w| - 1] == u + w';
      ScanAppend(stack, u, w');
    }
  }

  /** A well-nested string leaves any stack as it found it. */
  lemma {:induction false} ScanText(stack: seq<char>, n: Nest)
    ensures Scan(stack, Text(n)) == stack
    decreases n
  {
    match n
    case Empty =>
    case Group(k, inner, rest) =>
      var o, i, c, r := [Open(k)], Text(inner), [Close(k)], Text(rest);
      var pushed := stack + [Open(k)];
      assert Text(n) == o + i + c + r;
      calc {
        Scan(stack, o + i + c + r);
        { ScanAppend(stack, o + i + c, r); }
        Scan(Scan(stack, o + i + c), r);
        { ScanAppend(stack, o + i, c); }
        Scan(Scan(Scan(stack, o + i), c), r);
        { ScanAppend(stack, o, i); }
        Scan(Scan(Scan(Scan(stack, o), i), c), r);
        { ScanOne(stack, Open(k)); StepOpen(stack, k); }
        Scan(Scan(Scan(pushed, i), c), r);
        { ScanText(pushed, inner); }
        Scan(Scan(pushed, c), r);
        { ScanOne(pushed, Close(k)); StepClose(stack, k); }
        Scan(stack, r);
        { ScanText(stack, rest); }
        stack;
      }
  }

  /** An opener is pushed. */
  lemma StepOpen(stack: seq<char>, k: Kind)
    ensures Step(stack, Open(k)) == stack + [Open(k)]
  {
    assert Open(k) !in Closers;
  }

  /** A closer on top of its own opener pops it. */
  lemma StepClose(stack: seq<char>, k: Kind)
    ensures Step(stack + [Open(k)], Close(k)) == stack
  {
    assert Closers[Close(k)] == Open(k);
    assert (stack + [Open(k)])[..|stack|] == stack;
  }

  /** Reading one character is one step. */
  lemma ScanOne(stack: seq<char>, c: char)
    ensures Scan(stack, [c]) == Step(stack, c)
  {
    assert [c][..0] == [];
  }

  /** An element of the stack that is not an opener is never popped, and
      neither is anything below it. */
  lemma {:induction false} StuckPrefix(stack: seq<char>, s: string, p: nat)
    requires p < |stack| && !IsOpener(stack[p])
    ensures p < |Scan(stack, s)| && Scan(stack, s)[..p + 1] == stack[..p + 1]
    decreases |s|
  {
    if s != [] {
      StuckPrefix(stack, s[..|s| - 1], p);
      var t := Scan(stack, s[..|s| - 1]);
      assert t[p] == t[..p + 1][p];
      var c := s[|s| - 1];
      if t != [] && c in Closers && t[|t| - 1] == Closers[c] {
        assert IsOpener(Closers[c]);
        assert |t| - 1 != p;
        assert t[..|t| - 1][..p + 1] == t[..p + 1];
      } else {
        assert (t + [c])[..p + 1] == t[..p + 1];
      }
    }
  }

  /** Once the stack holds a character that is not an opener, the input is
      rejected, whatever follows. */
  lemma LeftoverRejects(s: string, j: nat, p: nat)
    requires j <= |s|
    requires p < |Scan([], s[..j])| && !IsOpener(Scan([], s[..j])[p])
    ensures !Matches(s)
  {
    assert s == s[..j] + s[j..];
    ScanAppend([], s[..j], s[j..]);
    StuckPrefix(Scan([], s[..j]), s[j..], p);
  }

  /** A character outside `()[]{}` is always pushed and never popped, so an
      input containing one is rejected. */
  lemma StrayCharacterRejects(s: string, i: nat)
    requires i < |s| && !IsOpener(s[i]) && s[i] !in Closers
    ensures !Matches(s)
  {
    assert s[..i + 1][..i] == s[..i];
    var t := Scan([], s[..i + 1]);
    assert t[|t| - 1] == s[i];
    LeftoverRejects(s, i + 1, |t| - 1);
  }

  /** A closing bracket read when the stack is empty, or when the top is not
      its opener, is pushed and never popped, so the input is rejected. */
  lemma UnmatchedCloserRejects(s: string, i: nat)
    requires i < |s| && s[i] in Closers
    requires Scan([], s[..i]) == [] || Scan([], s[..i])[|Scan([], s[..i])| - 1] != Closers[s[i]]
    ensures !Matches(s)
  {
    assert s[..i + 1][..i] == s[..i];
    var t := Scan([], s[..i + 1]);
    assert t[|t| - 1] == s[i];
    LeftoverRejects(s, i + 1, |t| - 1);
  }

  /** The open groups of a prefix: the well-nested text before each still
      unmatched opener, and the opener's kind. */
  datatype Frame = Frame(before: Nest, kind: Kind)

  function Prefix(frames: seq<Frame>): string {
    if frames == [] then []
    else
      var f := frames[|frames| - 1];
      Prefix(frames[..|frames| - 1]) + Text(f.before) + [Open(f.kind)]
  }

  function Opened(frames: seq<Frame>): seq<char> {
    seq(|frames|, i requires 0 <= i < |frames| => Open(frames[i].kind))
  }

  /** Every element of the stack is an opener. */
  predicate AllOpeners(stack: seq<char>) {
    forall i :: 0 <= i < |stack| ==> IsOpener(stack[i])
  }

  /** A step that leaves only openers started from only openers. */
  lemma OpenersBeforeStep(stack: seq<char>, c: char)
    requires AllOpeners(Step(stack, c))
    ensures AllOpeners(stack)
  {
    var t := Step(stack, c);
    forall i | 0 <= i < |stack|
      ensures IsOpener(stack[i])
    {
      if stack != [] && c in Closers && stack[|stack| - 1] == Closers[c] {
        if i < |stack| - 1 {
          assert stack[i] == t[i];
        }
      } else {
        assert stack[i] == t[i];
      }
    }
  }

  /** Reading an opener opens a new group after the text read so far. */
  lemma OpenGroup(fr: seq<Frame>, l: Nest, c: char) returns (frames: seq<Frame>, last: Nest)
    requires IsOpener(c)
    ensures Prefix(frames) + Text(last) == Prefix(fr) + Text(l) + [c]
    ensures Opened(frames) == Opened(fr) + [c]
  {
    frames, last := fr + [Frame(l, OpenerKind(c))], Empty;
    assert frames[..|frames| - 1] == fr;
  }

  /** Reading the closer of the innermost open group closes it: the group
      joins the well-nested text that came before its opener. */
  lemma CloseGroup(fr: seq<Frame>, l: Nest, c: char) returns (frames: seq<Frame>, last: Nest)
    requires fr != [] && c in Closers && Open(fr[|fr| - 1].kind) == Closers[c]
    ensures Prefix(frames) + Text(last) == Prefix(fr) + Text(l) + [c]
    ensures Opened(frames) == Opened(fr)[..|fr| - 1]
  {
    var f := fr[|fr| - 1];
    var k := CloserKind(c);
    assert f.kind == k by {
      assert Open(f.kind) == Open(k);
    }
    frames, last := fr[..|fr| - 1], Append(f.before, Group(k, l, Empty));
    PrefixDropLast(fr);
    GroupText(k, l);
    Regroup(Prefix(frames), Text(f.before), [Open(k)], Text(l), [c]);
    OpenedDropLast(fr);
  }

  /** CloseGroup: the prefix of the open groups, with the innermost one split off. */
  lemma PrefixDropLast(fr: seq<Frame>)
    requires fr != []
    ensures Prefix(fr) == Prefix(fr[..|fr| - 1]) + Text(fr[|fr| - 1].before) + [Open(fr[|fr| - 1].kind)]
  {
  }

  /** CloseGroup: the text of the group that the closer completes. */
  lemma GroupText(k: Kind, l: Nest)
    ensures Text(Group(k, l, Empty)) == [Open(k)] + Text(l) + [Close(k)]
  {
    assert Text(Empty) == [];
  }

  /** CloseGroup: the closed group's pieces regrouped from nested to flat
      concatenation. */
  lemma Regroup(p: string, b: string, o: string, t: string, c: string)
    ensures p + (b + (o + t + c)) == p + b + o + t + c
  {
  }

  /** CloseGroup: closing the innermost group pops its opener off the stack. */
  lemma OpenedDropLast(fr: seq<Frame>)
    requires fr != []
    ensures Opened(fr[..|fr| - 1]) == Opened(fr)[..|fr| - 1]
  {
  }

  /** An input whose stack holds only openers splits into well-nested
      pieces separated by exactly those openers. */
  lemma {:induction false} Decompose(s: string) returns (frames: seq<Frame>, last: Nest)
    requires AllOpeners(Scan([], s))
    ensures Prefix(frames) + Text(last) == s
    ensures Scan([], s) == Opened(frames)
    decreases |s|
  {
    if s == [] {
      return [], Empty;
    }
    var s', c := s[..|s| - 1], s[|s| - 1];
    assert s == s' + [c];
    var st := Scan([], s');
    OpenersBeforeStep(st, c);
    var fr, l := Decompose(s');
    if st != [] && c in Closers && st[|st| - 1] == Closers[c] {
      assert st[|st| - 1] == Opened(fr)[|fr| - 1];
      frames, last := CloseGroup(fr, l, c);
    } else {
      assert IsOpener(Step(st, c)[|st|]);
      frames, last := OpenGroup(fr, l, c);
    }
  }

  /** bracket_match's verdict is exactly "the brackets are properly matched". */
  lemma MatchesIffWellNested(s: string)
    ensures Matches(s) <==> WellNested(s)
  {
    if Matches(s) {
      var frames, last := Decompose(s);
      assert |frames| == |Opened(frames)| == 0;
      assert Text(last) == s;
    }
    if WellNested(s) {
      var n :| Text(n) == s;
      ScanText([], n);
    }
  }

  /** `bracket_match` (stacks.py:71-82). The ghost counter records the pops:
      the characters read are the stack's size plus two per pop, so an
      accepted input has even length. */
  method BracketMatch(input: string) returns (matched: bool)
    ensures matched <==> Matches(input)
    ensures matched <==> WellNested(input)
    ensures matched ==> |input| % 2 == 0
    ensures input == [] ==> matched
  {
    var stack := new Stack<char>();
    ghost var pops := 0;
    for i := 0 to |input|
      invariant stack.storage == Scan([], input[..i])
      invariant i == |stack.storage| + 2 * pops
    {
      var c := input[i];
      assert input[..i + 1][..i] == input[..i];
      if !stack.IsEmpty() && c in Closers {
        var top := stack.Peek();
        if top == Closers[c] {
          var _ := stack.Pop();
          pops := pops + 1;
        } else {
          stack.Push(c);
        }
      } else {
        stack.Push(c);
      }
    }
    assert input[..|input|] == input;
    matched := stack.IsEmpty();
    MatchesIffWellNested(input);
  }

  /** The accepted cases listed with bracket_match (stacks.py:62-67), and
      the empty input. */
  lemma DocumentedMatches()
    ensures Matches("[{}]") && Matches("(()())") && Matches("[]{}({})")
    ensures Matches("")
  {
    assert Matches("[{}]") by {
      var n := Group(Square, Group(Curly, Empty, Empty), Empty);
      assert Text(n) == "[{}]";
      ScanText([], n);
    }
    assert Matches("(()())") by {
      var n := Group(Round, Group(Round, Empty, Group(Round, Empty, Empty)), Empty);
      assert Text(n) == "(()())";
      ScanText([], n);
    }
    assert Matches("[]{}({})") by {
      var n := Group(Square, Empty, Group(Curly, Empty, Group(Round, Group(Curly, Empty, Empty), Empty)));
      assert Text(n) == "[]{}({})";
      ScanText([], n);
    }
  }

  /** The rejected cases listed with bracket_match (stacks.py:62-67). */
  lemma DocumentedMismatches()
    ensures !Matches("{]") && !Matches("[()]))()")
  {
    assert !Matches("{]") by {
      assert "{]"[..1] == "{";
      ScanOne([], '{');
      UnmatchedCloserRejects("{]", 1);
    }
    assert !Matches("[()]))()") by {
      var n := Group(Square, Group(Round, Empty, Empty), Empty);
      assert Text(n) == "[()]" == "[()]))()"[..4];
      ScanText([], n);
      UnmatchedCloserRejects("[()]))()", 4);
    }
  }

  /** The driver of stacks.py:85-91 without its printing: the results over
      the listed cases equal the expected ones. */
  method CheckCases() returns (results: seq<bool>)
    ensures results == [true, true, false, false, true]
  {
    var cases := ["[{}]", "(()())", "{]", "[()]))()", "[]{}({})"];
    results := [];
    for i := 0 to |cases|
      invariant |results| == i
      invariant forall j :: 0 <= j < i ==> results[j] == Matches(cases[j])
    {
      var r := BracketMatch(cases[i]);
      results := results + [r];
    }
    DocumentedMatches();
    DocumentedMismatches();
  }
}
