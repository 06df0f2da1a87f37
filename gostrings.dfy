/**
 * The parts of Go's `strings`, `path/filepath` and `bufio` packages the update pipeline
 * relies on, over strings of characters. Separators are single characters, as at every
 * call site in the pipeline (`"/"`, `" "`, `'\n'`).
 */
module GoStrings {

  // ---------------------------------------------------------------------------------
  // strings.HasPrefix, strings.HasSuffix, strings.Contains

  predicate HasPrefix(s: string, prefix: string) {
    |prefix| <= |s| && s[..|prefix|] == prefix
  }

  predicate HasSuffix(s: string, suffix: string) {
    |suffix| <= |s| && s[|s| - |suffix|..] == suffix
  }

  /** `sub` occurs in `s` at some position. */
  predicate Contains(s: string, sub: string)
    decreases |s|
  {
    HasPrefix(s, sub) || (|s| > 0 && Contains(s[1..], sub))
  }

  /** `sub` occurs in `s` starting at position `i`. */
  predicate OccursAt(s: string, sub: string, i: nat) {
    i + |sub| <= |s| && s[i..i + |sub|] == sub
  }

  /** An occurrence at position `i` makes `Contains` hold. */
  lemma {:induction false} ContainsAt(s: string, sub: string, i: nat)
    requires OccursAt(s, sub, i)
    ensures Contains(s, sub)
    decreases i
  {
    if i > 0 {
      assert s[1..][i - 1..i - 1 + |sub|] == s[i..i + |sub|];
      ContainsAt(s[1..], sub, i - 1);
    }
  }

  /** `Contains` holds only when there is an occurrence. */
  lemma {:induction false} ContainsWitness(s: string, sub: string) returns (i: nat)
    requires Contains(s, sub)
    ensures OccursAt(s, sub, i)
    decreases |s|
  {
    if HasPrefix(s, sub) {
      i := 0;
    } else {
      var k := ContainsWitness(s[1..], sub);
      assert s[1..][k..k + |sub|] == s[k + 1..k + 1 + |sub|];
      i := k + 1;
    }
  }

  /** A string lacking one of the characters of `sub` does not contain `sub`. */
  lemma {:induction false} NotContainsMissingChar(s: string, sub: string, c: char)
    requires c in sub && c !in s
    ensures !Contains(s, sub)
    decreases |s|
  {
    if |sub| <= |s| {
      var k :| 0 <= k < |sub| && sub[k] == c;
      assert s[..|sub|][k] != c;
    }
    if |s| > 0 {
      NotContainsMissingChar(s[1..], sub, c);
    }
  }

  /** `Contains` holds exactly when `sub` occurs at some position of `s`. */
  lemma ContainsIff(s: string, sub: string)
    ensures Contains(s, sub) <==> exists i: nat :: OccursAt(s, sub, i)
  {
    if Contains(s, sub) {
      var i := ContainsWitness(s, sub);
    }
    forall i: nat | OccursAt(s, sub, i)
      ensures Contains(s, sub)
    {
      ContainsAt(s, sub, i);
    }
  }

  /** A string contains each of its infixes. */
  lemma ContainsInfix(a: string, sub: string, b: string)
    ensures Contains(a + sub + b, sub)
  {
    assert (a + sub + b)[|a|..|a| + |sub|] == sub;
    ContainsAt(a + sub + b, sub, |a|);
  }

  // ---------------------------------------------------------------------------------
  // strings.ToLower (ASCII letters only)

  function LowerChar(c: char): char {
    if 'A' <= c <= 'Z' then (c as int + 32) as char else c
  }

  function ToLower(s: string): (r: string)
    ensures |r| == |s|
    ensures forall i :: 0 <= i < |r| ==> !('A' <= r[i] <= 'Z')
    ensures forall i :: 0 <= i < |s| && !('A' <= s[i] <= 'Z') ==> r[i] == s[i]
    ensures forall i :: 0 <= i < |s| && 'A' <= s[i] <= 'Z' ==> r[i] as int == s[i] as int + 32
  {
    seq(|s|, i requires 0 <= i < |s| => LowerChar(s[i]))
  }

  /** A string with no upper-case ASCII letter is its own lower-case form. */
  lemma ToLowerOfLower(s: string)
    requires forall i :: 0 <= i < |s| ==> !('A' <= s[i] <= 'Z')
    ensures ToLower(s) == s
  {
  }

  /** Lower-casing twice is lower-casing once. */
  lemma ToLowerIdempotent(s: string)
    ensures ToLower(ToLower(s)) == ToLower(s)
  {
    ToLowerOfLower(ToLower(s));
  }

  // ---------------------------------------------------------------------------------
  // strings.Split with a one-character separator, and its inverse strings.Join

  /** Number of occurrences of `c` in `s`. */
  function Count(s: string, c: char): nat
    decreases |s|
  {
    if |s| == 0 then 0 else (if s[0] == c then 1 else 0) + Count(s[1..], c)
  }

  lemma {:induction false} CountAppend(a: string, b: string, c: char)
    ensures Count(a + b, c) == Count(a, c) + Count(b, c)
    decreases |a|
  {
    if |a| > 0 {
      assert (a + b)[1..] == a[1..] + b;
      CountAppend(a[1..], b, c);
    } else {
      assert a + b == b;
    }
  }

  /**
   * strings.Split(s, [sep]): the pieces of `s` between occurrences of `sep`, in order.
   * The empty string splits into one empty piece.
   */
  function Split(s: string, sep: char): (parts: seq<string>)
    ensures |parts| == Count(s, sep) + 1
    decreases |s|
  {
    if |s| == 0 then [""]
    else
      var rest := Split(s[1..], sep);
      if s[0] == sep then [""] + rest
      else [[s[0]] + rest[0]] + rest[1..]
  }

  /** strings.Join(parts, [sep]). */
  function Join(parts: seq<string>, sep: char): string
    requires |parts| >= 1
    decreases |parts|
  {
    if |parts| == 1 then parts[0] else parts[0] + [sep] + Join(parts[1..], sep)
  }

  /** No piece contains the separator. */
  lemma {:induction false} SplitPiecesFree(s: string, sep: char)
    ensures forall k :: 0 <= k < |Split(s, sep)| ==> sep !in Split(s, sep)[k]
    decreases |s|
  {
    if |s| > 0 {
      SplitPiecesFree(s[1..], sep);
    }
  }

  /** Joining the pieces with the separator gives back the string. */
  lemma {:induction false} JoinSplit(s: string, sep: char)
    ensures Join(Split(s, sep), sep) == s
    decreases |s|
  {
    if |s| > 0 {
      var rest := Split(s[1..], sep);
      JoinSplit(s[1..], sep);
      if s[0] != sep {
        if |rest| > 1 {
          assert rest == [rest[0]] + rest[1..];
          assert Join(rest, sep) == rest[0] + [sep] + Join(rest[1..], sep);
        }
      }
    }
  }

  /** A separator in the middle splits off a separator-free head. */
  lemma {:induction false} SplitAfterHead(a: string, b: string, sep: char)
    requires sep !in a
    ensures Split(a + [sep] + b, sep) == [a] + Split(b, sep)
    decreases |a|
  {
    if |a| > 0 {
      assert (a + [sep] + b)[1..] == a[1..] + [sep] + b;
      SplitAfterHead(a[1..], b, sep);
      assert [a[0]] + a[1..] == a;
    } else {
      assert a + [sep] + b == [sep] + b;
    }
  }

  /** A string without the separator is a single piece. */
  lemma {:induction false} SplitNoSeparator(s: string, sep: char)
    requires sep !in s
    ensures Split(s, sep) == [s]
    decreases |s|
  {
    if |s| > 0 {
      SplitNoSeparator(s[1..], sep);
      assert [s[0]] + s[1..] == s;
    }
  }

  /** Splitting a join of separator-free pieces gives back the pieces. */
  lemma {:induction false} SplitJoin(parts: seq<string>, sep: char)
    requires |parts| >= 1
    requires forall k :: 0 <= k < |parts| ==> sep !in parts[k]
    ensures Split(Join(parts, sep), sep) == parts
    decreases |parts|
  {
    if |parts| == 1 {
      SplitNoSeparator(parts[0], sep);
    } else {
      SplitJoin(parts[1..], sep);
      SplitAfterHead(parts[0], Join(parts[1..], sep), sep);
    }
  }

  /** Splitting distributes over a separator: the pieces of both sides, in order. */
  lemma {:induction false} SplitAround(a: string, b: string, sep: char)
    ensures Split(a + [sep] + b, sep) == Split(a, sep) + Split(b, sep)
    decreases |a|
  {
    if |a| == 0 {
      assert a + [sep] + b == [sep] + b;
      assert ([sep] + b)[1..] == b;
    } else {
      assert (a + [sep] + b)[1..] == a[1..] + [sep] + b;
      SplitAround(a[1..], b, sep);
    }
  }

  // ---------------------------------------------------------------------------------
  // strings.TrimSpace

  /** unicode.IsSpace: the characters strings.TrimSpace removes. */
  predicate IsSpace(c: char) {
    || c == ' ' || c == '\t' || c == '\n' || c == '\r' || c == '\U{000B}' || c == '\U{000C}'
    || c == '\U{0085}' || c == '\U{00A0}' || c == '\U{1680}'
    || ('\U{2000}' <= c <= '\U{200A}')
    || c == '\U{2028}' || c == '\U{2029}' || c == '\U{202F}' || c == '\U{205F}' || c == '\U{3000}'
  }

  predicate NoSpace(s: string) {
    forall i :: 0 <= i < |s| ==> !IsSpace(s[i])
  }

  function TrimLeftSpace(s: string): (r: string)
    ensures HasSuffix(s, r)
    ensures forall k :: 0 <= k < |s| - |r| ==> IsSpace(s[k])
    ensures |r| > 0 ==> !IsSpace(r[0])
    decreases |s|
  {
    if |s| > 0 && IsSpace(s[0]) then
      var r := TrimLeftSpace(s[1..]);
      assert forall k :: 1 <= k < |s| - |r| ==> s[k] == s[1..][k - 1];
      r
    else s
  }

  function TrimRightSpace(s: string): (r: string)
    ensures HasPrefix(s, r)
    ensures forall k :: |r| <= k < |s| ==> IsSpace(s[k])
    ensures |r| > 0 ==> !IsSpace(r[|r| - 1])
    decreases |s|
  {
    if |s| > 0 && IsSpace(s[|s| - 1]) then
      var r := TrimRightSpace(s[..|s| - 1]);
      assert forall k :: |r| <= k < |s| - 1 ==> s[k] == s[..|s| - 1][k];
      r
    else s
  }

  /**
   * strings.TrimSpace: leading and trailing white space removed. The result is the
   * infix of `s` left once every white-space character before and after it is dropped,
   * and it neither starts nor ends with white space.
   */
  function TrimSpace(s: string): (r: string)
    ensures |r| > 0 ==> !IsSpace(r[0]) && !IsSpace(r[|r| - 1])
    ensures exists i: nat :: SpaceFramed(s, r, i)
  {
    var left := TrimLeftSpace(s);
    var r := TrimRightSpace(left);
    TrimsFrame(s, left, r);
    r
  }

  /** Dropping white space from the front and then from the back leaves a framed infix. */
  lemma TrimsFrame(s: string, left: string, r: string)
    requires HasSuffix(s, left) && forall k :: 0 <= k < |s| - |left| ==> IsSpace(s[k])
    requires HasPrefix(left, r) && forall k :: |r| <= k < |left| ==> IsSpace(left[k])
    ensures SpaceFramed(s, r, |s| - |left|)
  {
    var i := |s| - |left|;
    assert s[i..i + |r|] == left[..|r|];
    forall k | i + |r| <= k < |s|
      ensures IsSpace(s[k])
    {
      assert s[k] == left[k - i];
    }
  }

  /** `r` occurs in `s` at `i`, and everything before and after it is white space. */
  predicate SpaceFramed(s: string, r: string, i: nat) {
    && OccursAt(s, r, i)
    && (forall k :: 0 <= k < i ==> IsSpace(s[k]))
    && (forall k :: i + |r| <= k < |s| ==> IsSpace(s[k]))
  }

  /** The trimmed string occurs in the original. */
  lemma TrimSpaceContained(s: string)
    ensures Contains(s, TrimSpace(s))
  {
    var r := TrimSpace(s);
    var i: nat :| SpaceFramed(s, r, i);
    ContainsAt(s, r, i);
  }

  /** A string without white space is left as it is. */
  lemma TrimSpaceNoSpace(s: string)
    requires NoSpace(s)
    ensures TrimSpace(s) == s
  {
  }

  // ---------------------------------------------------------------------------------
  // bufio.Scanner with bufio.ScanLines

  /** A trailing carriage return is dropped from each line. */
  function DropCR(line: string): string {
    if |line| > 0 && line[|line| - 1] == '\r' then line[..|line| - 1] else line
  }

  /** The pieces between newlines, without an empty piece after a final newline. */
  function LinePieces(body: string): (pieces: seq<string>)
  {
    DropFinalEmpty(Split(body, '\n'))
  }

  /** `parts` without its last element when that element is empty. */
  function DropFinalEmpty(parts: seq<string>): seq<string>
    requires |parts| >= 1
  {
    if parts[|parts| - 1] == "" then parts[..|parts| - 1] else parts
  }

  lemma DropFinalEmptyPrefix(parts: seq<string>)
    requires |parts| >= 1
    ensures var r := DropFinalEmpty(parts); |parts| - 1 <= |r| <= |parts| && r == parts[..|r|]
  {
  }

  /**
   * The lines a bufio.Scanner with ScanLines yields for `body`: the text between
   * newlines, with one trailing '\r' removed; a final line needs no newline, and an
   * empty body yields no line.
   */
  function Lines(body: string): (lines: seq<string>)
    ensures |lines| == |LinePieces(body)|
    ensures forall k :: 0 <= k < |lines| ==> lines[k] == DropCR(LinePieces(body)[k])
  {
    var pieces := LinePieces(body);
    seq(|pieces|, k requires 0 <= k < |pieces| => DropCR(pieces[k]))
  }

  /** The pieces of a body up to a newline are the first pieces of the whole body. */
  lemma LinePiecesPrefix(a: string, b: string)
    ensures |LinePieces(a)| <= |LinePieces(a + "\n" + b)|
    ensures LinePieces(a) == LinePieces(a + "\n" + b)[..|LinePieces(a)|]
  {
    var pa, pb := Split(a, '\n'), Split(b, '\n');
    assert a + "\n" + b == a + ['\n'] + b;
    SplitAround(a, b, '\n');
    var whole := pa + pb;
    DropFinalEmptyPrefix(whole);
    DropFinalEmptyPrefix(pa);
    var kept := DropFinalEmpty(whole);
    assert kept[..|pa|] == whole[..|pa|] == pa;
    var mine := DropFinalEmpty(pa);
    assert mine == pa[..|mine|];
  }

  /** The lines before a newline come first among the lines of the whole body. */
  lemma LinesPrefix(a: string, b: string)
    ensures |Lines(a)| <= |Lines(a + "\n" + b)|
    ensures Lines(a) == Lines(a + "\n" + b)[..|Lines(a)|]
  {
    LinePiecesPrefix(a, b);
    var la, lw := Lines(a), Lines(a + "\n" + b);
    forall k | 0 <= k < |la| ensures la[k] == lw[k] {
      assert LinePieces(a)[k] == LinePieces(a + "\n" + b)[k];
    }
  }

  // ---------------------------------------------------------------------------------
  // filepath.Base with '/' as the only separator

  function StripTrailingSlashes(path: string): (r: string)
    ensures HasPrefix(path, r)
    ensures |r| > 0 ==> r[|r| - 1] != '/'
    decreases |path|
  {
    if |path| > 0 && path[|path| - 1] == '/' then StripTrailingSlashes(path[..|path| - 1]) else path
  }

  /** The text after the last '/'. */
  function LastElement(path: string): (r: string)
    ensures HasSuffix(path, r)
    ensures '/' !in r
    ensures |r| < |path| ==> path[|path| - |r| - 1] == '/'
    decreases |path|
  {
    if |path| == 0 || path[|path| - 1] == '/' then ""
    else LastElement(path[..|path| - 1]) + [path[|path| - 1]]
  }

  /**
   * filepath.Base: the last element of `path` after trailing slashes are removed;
   * "." for the empty path and "/" for a path of slashes only.
   */
  function Base(path: string): (b: string)
    ensures b != ""
    ensures b == "/" || '/' !in b
    ensures path == "" ==> b == "."
    ensures path != "" && b != "/" ==>
              var t := StripTrailingSlashes(path);
              HasSuffix(t, b) && (|b| < |t| ==> t[|t| - |b| - 1] == '/')
  {
    if path == "" then "."
    else
      var last := LastElement(StripTrailingSlashes(path));
      if last == "" then "/" else last
  }

  /** A non-empty name without '/' is its own base name. */
  lemma BaseOfPlainName(name: string)
    requires name != "" && '/' !in name
    ensures Base(name) == name
  {
    LastElementOfPlainName(name);
  }

  lemma {:induction false} LastElementOfPlainName(name: string)
    requires '/' !in name
    ensures LastElement(name) == name
    decreases |name|
  {
    if |name| > 0 {
      LastElementOfPlainName(name[..|name| - 1]);
      assert name[..|name| - 1] + [name[|name| - 1]] == name;
    }
  }

  /** The directory part of a path does not matter to its base name. */
  lemma {:induction false} LastElementAfterSlash(dir: string, name: string)
    requires '/' !in name
    ensures LastElement(dir + "/" + name) == name
    decreases |name|
  {
    if |name| == 0 {
      assert dir + "/" + name == dir + "/";
    } else {
      var init := name[..|name| - 1];
      assert (dir + "/" + name)[..|dir + "/" + name| - 1] == dir + "/" + init;
      LastElementAfterSlash(dir, init);
      assert init + [name[|name| - 1]] == name;
    }
  }

  /** An entry inside a directory has the base name of its last element. */
  lemma BaseInDirectory(dir: string, name: string)
    requires name != "" && '/' !in name
    ensures Base(dir + "/" + name) == name
  {
    LastElementAfterSlash(dir, name);
  }

  /** A path made only of slashes has base name "/". */
  lemma BaseOfSlashes(path: string)
    requires path != "" && forall i :: 0 <= i < |path| ==> path[i] == '/'
    ensures Base(path) == "/"
  {
    StripAllSlashes(path);
  }

  lemma {:induction false} StripAllSlashes(path: string)
    requires forall i :: 0 <= i < |path| ==> path[i] == '/'
    ensures StripTrailingSlashes(path) == ""
    decreases |path|
  {
    if |path| > 0 {
      StripAllSlashes(path[..|path| - 1]);
    }
  }

  /** Trailing slashes do not change the base name of a non-empty path. */
  lemma BaseIgnoresTrailingSlash(path: string)
    requires path != ""
    ensures Base(path + "/") == Base(path)
  {
    assert (path + "/")[..|path + "/"| - 1] == path;
  }
}
