/**
  The JavaScript string operations the extension is built from, written out over
  sequences of characters: trim and its one-sided variants, split('\n') and
  join('\n'), includes/indexOf, startsWith/endsWith, substring(0, n) and case mapping.
  Characters are code points; JavaScript strings are UTF-16 units (see README).
*/
module Text {

  /** JavaScript's WhiteSpace and LineTerminator characters: what String.prototype.trim
      removes and what `\s` matches in a regular expression. */
  predicate IsSpace(c: char) {
    c == ' ' || c == '\t' || c == '\n' || c == '\U{000B}' || c == '\U{000C}' || c == '\r'
    || c == '\U{00A0}' || c == '\U{1680}' || c == '\U{2000}' || c == '\U{2001}' || c == '\U{2002}' || c == '\U{2003}'
    || c == '\U{2004}' || c == '\U{2005}' || c == '\U{2006}' || c == '\U{2007}' || c == '\U{2008}' || c == '\U{2009}'
    || c == '\U{200A}' || c == '\U{2028}' || c == '\U{2029}' || c == '\U{202F}' || c == '\U{205F}' || c == '\U{3000}'
    || c == '\U{FEFF}'
  }

  /** The characters that `.` in a regular expression does not match. */
  predicate IsLineTerminator(c: char) {
    c == '\n' || c == '\r' || c as int == 0x2028 || c as int == 0x2029
  }

  /** Every character is whitespace (the empty string included). */
  predicate Blank(s: string) {
    forall k :: 0 <= k < |s| ==> IsSpace(s[k])
  }

  /** Neither end of the string is whitespace. */
  predicate IsTrimmed(s: string) {
    s == [] || (!IsSpace(s[0]) && !IsSpace(s[|s| - 1]))
  }

  /** `a` is a suffix of `b`. */
  predicate SuffixOf(a: string, b: string) {
    |a| <= |b| && a == b[|b| - |a|..]
  }

  /** `a` is a prefix of `b`. */
  predicate PrefixOf(a: string, b: string) {
    |a| <= |b| && a == b[..|a|]
  }

  lemma SuffixTransitive(a: string, b: string, c: string)
    requires SuffixOf(a, b) && SuffixOf(b, c)
    ensures SuffixOf(a, c)
  {
    assert c[|c| - |a|..] == c[|c| - |b|..][|b| - |a|..];
  }

  lemma PrefixTransitive(a: string, b: string, c: string)
    requires PrefixOf(a, b) && PrefixOf(b, c)
    ensures PrefixOf(a, c)
  {
    assert c[..|a|] == c[..|b|][..|a|];
  }

  /** The index of the first character at or after `i` that is not whitespace, or `|s|`. */
  function SkipSpaces(s: string, i: nat): (k: nat)
    requires i <= |s|
    ensures i <= k <= |s|
    decreases |s| - i
  {
    if i < |s| && IsSpace(s[i]) then SkipSpaces(s, i + 1) else i
  }

  /** SkipSpaces stops at a character that is not whitespace, or at the end. */
  lemma {:induction false} SkipSpacesStops(s: string, i: nat)
    requires i <= |s|
    ensures SkipSpaces(s, i) == |s| || !IsSpace(s[SkipSpaces(s, i)])
    decreases |s| - i
  {
    if i < |s| && IsSpace(s[i]) {
      SkipSpacesStops(s, i + 1);
    }
  }

  /** The index just after the last character before `j` that is not whitespace, or 0. */
  function SkipSpacesBack(s: string, j: nat): (k: nat)
    requires j <= |s|
    ensures k <= j
    decreases j
  {
    if j > 0 && IsSpace(s[j - 1]) then SkipSpacesBack(s, j - 1) else j
  }

  /** SkipSpacesBack stops just after a character that is not whitespace, or at 0. */
  lemma {:induction false} SkipSpacesBackStops(s: string, j: nat)
    requires j <= |s|
    ensures SkipSpacesBack(s, j) == 0 || !IsSpace(s[SkipSpacesBack(s, j) - 1])
    decreases j
  {
    if j > 0 && IsSpace(s[j - 1]) {
      SkipSpacesBackStops(s, j - 1);
    }
  }

  /** What SkipSpaces passes over is whitespace. */
  lemma {:induction false} SkipSpacesSkipsBlank(s: string, i: nat)
    requires i <= |s|
    ensures forall k :: i <= k < SkipSpaces(s, i) ==> IsSpace(s[k])
    decreases |s| - i
  {
    if i < |s| && IsSpace(s[i]) {
      SkipSpacesSkipsBlank(s, i + 1);
    }
  }

  /** What SkipSpacesBack passes over is whitespace. */
  lemma {:induction false} SkipSpacesBackSkipsBlank(s: string, j: nat)
    requires j <= |s|
    ensures forall k :: SkipSpacesBack(s, j) <= k < j ==> IsSpace(s[k])
    decreases j
  {
    if j > 0 && IsSpace(s[j - 1]) {
      SkipSpacesBackSkipsBlank(s, j - 1);
    }
  }

  /** SkipSpaces stops at the first character that is not whitespace. */
  lemma {:induction false} SkipSpacesAt(s: string, i: nat, k: nat)
    requires i <= k <= |s| && (k == |s| || !IsSpace(s[k]))
    requires forall m :: i <= m < k ==> IsSpace(s[m])
    ensures SkipSpaces(s, i) == k
    decreases k - i
  {
    if i < k {
      SkipSpacesAt(s, i + 1, k);
    }
  }

  /** SkipSpacesBack stops just after the last character that is not whitespace. */
  lemma {:induction false} SkipSpacesBackAt(s: string, j: nat, k: nat)
    requires k <= j <= |s| && (k == 0 || !IsSpace(s[k - 1]))
    requires forall m :: k <= m < j ==> IsSpace(s[m])
    ensures SkipSpacesBack(s, j) == k
    decreases j - k
  {
    if k < j {
      SkipSpacesBackAt(s, j - 1, k);
    }
  }

  /** `s.trimStart()`: drops the leading whitespace and nothing else. */
  function TrimStart(s: string): (r: string)
    ensures SuffixOf(r, s)
    ensures r == [] || !IsSpace(r[0])
  {
    SkipSpacesStops(s, 0);
    s[SkipSpaces(s, 0)..]
  }

  /** `s.trimEnd()`: drops the trailing whitespace and nothing else. */
  function TrimEnd(s: string): (r: string)
    ensures PrefixOf(r, s)
    ensures r == [] || !IsSpace(r[|r| - 1])
  {
    SkipSpacesBackStops(s, |s|);
    s[..SkipSpacesBack(s, |s|)]
  }

  /** What trimStart drops is whitespace. */
  lemma TrimStartDropsBlank(s: string)
    ensures Blank(s[..|s| - |TrimStart(s)|])
  {
    var k := SkipSpaces(s, 0);
    SkipSpacesSkipsBlank(s, 0);
    assert |s| - |TrimStart(s)| == k;
    forall m | 0 <= m < k ensures IsSpace(s[..k][m]) {
      assert s[..k][m] == s[m];
    }
  }

  /** What trimEnd drops is whitespace. */
  lemma TrimEndDropsBlank(s: string)
    ensures Blank(s[|TrimEnd(s)|..])
  {
    var k := SkipSpacesBack(s, |s|);
    SkipSpacesBackSkipsBlank(s, |s|);
    assert |TrimEnd(s)| == k;
    forall m | 0 <= m < |s| - k ensures IsSpace(s[k..][m]) {
      assert s[k..][m] == s[k + m];
    }
  }

  /** `s.trim()`. */
  function Trim(s: string): (r: string)
    ensures IsTrimmed(r)
    ensures |r| <= |s|
  {
    TrimEnd(TrimStart(s))
  }

  /** Trimming leaves nothing exactly when the string is blank. */
  lemma TrimEmptyIffBlank(s: string)
    ensures Trim(s) == [] <==> Blank(s)
  {
    var t := TrimStart(s);
    TrimStartDropsBlank(s);
    TrimEndDropsBlank(t);
    if Trim(s) == [] {
      assert t[|TrimEnd(t)|..] == t;
      forall k | 0 <= k < |s| ensures IsSpace(s[k]) {
        if k < |s| - |t| {
          assert s[k] == s[..|s| - |t|][k];
        }
      }
    }
  }

  /** Trimming the start of `a + b` stops inside `a` when `a` is not blank. */
  lemma TrimStartAppend(a: string, b: string)
    requires !Blank(a)
    ensures TrimStart(a + b) == TrimStart(a) + b
  {
    var k := SkipSpaces(a, 0);
    SkipSpacesSkipsBlank(a, 0);
    SkipSpacesStops(a, 0);
    assert k < |a|;
    SkipSpacesAt(a + b, 0, k);
    assert (a + b)[k..] == a[k..] + b;
  }

  /** Trimming the end of `a + b` stops inside `b` when `b` is not blank. */
  lemma TrimEndAppend(a: string, b: string)
    requires !Blank(b)
    ensures TrimEnd(a + b) == a + TrimEnd(b)
  {
    var k := SkipSpacesBack(b, |b|);
    SkipSpacesBackSkipsBlank(b, |b|);
    SkipSpacesBackStops(b, |b|);
    assert k > 0;
    SkipSpacesBackAt(a + b, |a + b|, |a| + k);
    assert (a + b)[..|a| + k] == a + b[..k];
  }

  /** Trimming one side and then the other does not depend on the order. */
  lemma TrimCommutes(s: string)
    ensures TrimStart(TrimEnd(s)) == TrimEnd(TrimStart(s))
  {
    if Blank(s) {
      BlankTrimsToNothing(s);
    } else {
      TrimStartOfTrimEnd(s);
      TrimEndOfTrimStart(s);
    }
  }

  /** Trimming the end and then the start keeps what lies between the first and the last
      character that is not whitespace. */
  lemma TrimStartOfTrimEnd(s: string)
    requires !Blank(s)
    ensures SkipSpaces(s, 0) < SkipSpacesBack(s, |s|)
    ensures TrimStart(TrimEnd(s)) == s[SkipSpaces(s, 0)..SkipSpacesBack(s, |s|)]
  {
    var i := SkipSpaces(s, 0);
    var j := SkipSpacesBack(s, |s|);
    TrimBounds(s);
    SkipSpacesPrefix(s, j, 0);
    SliceOfPrefix(s, j, i);
  }

  /** Trimming the start and then the end keeps the same characters. */
  lemma TrimEndOfTrimStart(s: string)
    requires !Blank(s)
    ensures SkipSpaces(s, 0) < SkipSpacesBack(s, |s|)
    ensures TrimEnd(TrimStart(s)) == s[SkipSpaces(s, 0)..SkipSpacesBack(s, |s|)]
  {
    var i := SkipSpaces(s, 0);
    var j := SkipSpacesBack(s, |s|);
    TrimBounds(s);
    assert TrimStart(s) == s[i..];
    TrimEndOfSuffix(s, i);
  }

  /** Trimming the end of a suffix that starts before the end of what is kept. */
  lemma TrimEndOfSuffix(s: string, i: nat)
    requires i <= SkipSpacesBack(s, |s|)
    ensures TrimEnd(s[i..]) == s[i..SkipSpacesBack(s, |s|)]
  {
    var j := SkipSpacesBack(s, |s|);
    if i < j {
      TrimEndOfSuffixBefore(s, i);
      SliceOfSuffix(s, i, j);
    } else {
      SuffixEndsBlank(s, i);
      TrimEndBefore(s[i..], 0);
    }
  }

  lemma TrimEndOfSuffixBefore(s: string, i: nat)
    requires i < SkipSpacesBack(s, |s|)
    ensures TrimEnd(s[i..]) == s[i..][..SkipSpacesBack(s, |s|) - i]
  {
    var k := KeptEndOfSuffix(s, i);
    TrimEndBefore(s[i..], k);
  }

  /** Where what `s` keeps ends, counted in the suffix from `i`: just after a character
      that is not whitespace, with only whitespace after it. */
  lemma KeptEndOfSuffix(s: string, i: nat) returns (k: nat)
    requires i < SkipSpacesBack(s, |s|)
    ensures k == SkipSpacesBack(s, |s|) - i
    ensures 0 < k <= |s[i..]| && !IsSpace(s[i..][k - 1]) && Blank(s[i..][k..])
  {
    k := SkipSpacesBack(s, |s|) - i;
    SuffixEndsBlank(s, i);
    SuffixKeepsLast(s, i);
  }

  /** In a suffix of `s`, what follows the last character `s` keeps is whitespace. */
  lemma SuffixEndsBlank(s: string, i: nat)
    requires i <= SkipSpacesBack(s, |s|)
    ensures Blank(s[i..][SkipSpacesBack(s, |s|) - i..])
  {
    TrimEndDropsBlank(s);
    DropOfSuffix(s, i, SkipSpacesBack(s, |s|) - i);
  }

  /** In a suffix of `s`, the last character `s` keeps is not whitespace. */
  lemma SuffixKeepsLast(s: string, i: nat)
    requires i < SkipSpacesBack(s, |s|)
    ensures !IsSpace(s[i..][SkipSpacesBack(s, |s|) - i - 1])
  {
    SkipSpacesBackStops(s, |s|);
  }

  /** trimEnd stops after a character that is not whitespace when only whitespace
      follows it. */
  lemma TrimEndBefore(t: string, k: nat)
    requires k <= |t| && (k == 0 || !IsSpace(t[k - 1])) && Blank(t[k..])
    ensures TrimEnd(t) == t[..k]
  {
    forall m | k <= m < |t| ensures IsSpace(t[m]) {
      assert t[k..][m - k] == t[m];
    }
    SkipSpacesBackAt(t, |t|, k);
  }

  lemma DropOfSuffix(s: string, i: nat, n: nat)
    requires i + n <= |s|
    ensures s[i..][n..] == s[i + n..]
  {
  }

  lemma SliceOfSuffix(s: string, i: nat, j: nat)
    requires i <= j <= |s|
    ensures s[i..][..j - i] == s[i..j]
  {
  }

  lemma SliceOfPrefix(s: string, j: nat, i: nat)
    requires i <= j <= |s|
    ensures s[..j][i..] == s[i..j]
  {
  }

  /** Skipping spaces in a prefix that reaches the stopping point stops at the same index. */
  lemma {:induction false} SkipSpacesPrefix(s: string, j: nat, k: nat)
    requires k <= j <= |s| && SkipSpaces(s, k) <= j
    ensures SkipSpaces(s[..j], k) == SkipSpaces(s, k)
    decreases j - k
  {
    if k < j {
      assert s[..j][k] == s[k];
      if IsSpace(s[k]) {
        SkipSpacesPrefix(s, j, k + 1);
      }
    }
  }

  /** Skipping spaces backwards in a suffix that reaches the stopping point stops at the
      same character. */
  lemma {:induction false} SkipSpacesBackSuffix(s: string, i: nat, j: nat)
    requires i <= j <= |s| && i <= SkipSpacesBack(s, j)
    ensures SkipSpacesBack(s[i..], j - i) == SkipSpacesBack(s, j) - i
    decreases j
  {
    if i < j {
      assert s[i..][j - i - 1] == s[j - 1];
      if IsSpace(s[j - 1]) {
        SkipSpacesBackSuffix(s, i, j - 1);
      }
    }
  }

  /** A blank string trims to nothing from either side. */
  lemma BlankTrimsToNothing(s: string)
    requires Blank(s)
    ensures TrimStart(s) == [] && TrimEnd(s) == []
  {
    SkipSpacesAt(s, 0, |s|);
    SkipSpacesBackAt(s, |s|, 0);
  }

  /** In a string that is not blank, the first character kept comes before the end of
      what is kept. */
  lemma TrimBounds(s: string)
    requires !Blank(s)
    ensures SkipSpaces(s, 0) < SkipSpacesBack(s, |s|)
  {
    var m :| 0 <= m < |s| && !IsSpace(s[m]);
    SkipSpacesSkipsBlank(s, 0);
    SkipSpacesBackSkipsBlank(s, |s|);
  }

  /** Dropping one leading space does not change what trimStart keeps. */
  lemma TrimStartDropFirst(s: string)
    requires |s| > 0 && IsSpace(s[0])
    ensures TrimStart(s[1..]) == TrimStart(s)
  {
    var k := SkipSpaces(s, 0);
    SkipSpacesSkipsBlank(s, 0);
    SkipSpacesStops(s, 0);
    SkipSpacesAt(s[1..], 0, k - 1);
    assert s[1..][k - 1..] == s[k..];
  }

  /** Trimming is idempotent on each side. */
  lemma TrimAfterOneSide(s: string)
    ensures Trim(TrimStart(s)) == Trim(s)
    ensures Trim(TrimEnd(s)) == Trim(s)
    ensures Trim(Trim(s)) == Trim(s)
  {
    TrimStartIdempotent(s);
    TrimEndIdempotent(TrimStart(s));
    TrimCommutes(s);
    TrimCommutes(TrimStart(s));
    TrimEndIdempotent(s);
    TrimCommutes(TrimEnd(TrimStart(s)));
  }

  lemma TrimStartIdempotent(s: string)
    ensures TrimStart(TrimStart(s)) == TrimStart(s)
  {
    var t := TrimStart(s);
    assert SkipSpaces(t, 0) == 0;
  }

  lemma TrimEndIdempotent(s: string)
    ensures TrimEnd(TrimEnd(s)) == TrimEnd(s)
  {
    var t := TrimEnd(s);
    assert SkipSpacesBack(t, |t|) == |t|;
  }

  /** A string that is not blank stays so after trimming one side. */
  lemma TrimPreservesContent(s: string)
    requires !Blank(s)
    ensures !Blank(TrimStart(s)) && !Blank(TrimEnd(s))
  {
    var k :| 0 <= k < |s| && !IsSpace(s[k]);
    TrimStartKeeps(s, k);
    TrimEndKeeps(s, k);
  }

  /** Trimming the start keeps every character from the first non-blank one on. */
  lemma TrimStartKeeps(s: string, k: nat)
    requires k < |s| && !IsSpace(s[k])
    ensures k >= |s| - |TrimStart(s)| && TrimStart(s)[k - (|s| - |TrimStart(s)|)] == s[k]
  {
    SkipSpacesSkipsBlank(s, 0);
  }

  /** Trimming the end keeps every character up to the last non-blank one. */
  lemma TrimEndKeeps(s: string, i: nat)
    requires i < |s| && !IsSpace(s[i])
    ensures |TrimEnd(s)| > i && TrimEnd(s)[i] == s[i]
  {
    SkipSpacesBackSkipsBlank(s, |s|);
  }

  /** A string whose first character is not blank keeps it first after trimming. */
  lemma TrimKeepsFirst(s: string)
    requires |s| > 0 && !IsSpace(s[0])
    ensures TrimStart(s) == s
    ensures |Trim(s)| > 0 && Trim(s)[0] == s[0]
  {
    assert SkipSpaces(s, 0) == 0;
    TrimEndKeeps(s, 0);
  }

  // ---------------------------------------------------------------- split / join

  /** No line feed in the string. */
  predicate IsLine(s: string) {
    '\n' !in s
  }

  /** Trimming a line leaves a line. */
  lemma TrimKeepsLine(s: string)
    requires IsLine(s)
    ensures IsLine(TrimStart(s)) && IsLine(TrimEnd(s)) && IsLine(Trim(s))
  {
  }

  /** `s.split('\n')`: the pieces between line feeds, always at least one. */
  function Split(s: string): (r: seq<string>)
    ensures |r| >= 1
    ensures forall k :: 0 <= k < |r| ==> IsLine(r[k])
    decreases |s|
  {
    if s == [] then [""]
    else if s[0] == '\n' then [""] + Split(s[1..])
    else
      var rest := Split(s[1..]);
      [[s[0]] + rest[0]] + rest[1..]
  }

  /** `lines.join('\n')`. */
  function Join(lines: seq<string>): (r: string)
    decreases |lines|
  {
    if |lines| == 0 then ""
    else if |lines| == 1 then lines[0]
    else lines[0] + "\n" + Join(lines[1..])
  }

  /** Number of occurrences of `c` in `s`. */
  function Count(c: char, s: string): (n: nat)
    ensures n <= |s|
    ensures n == 0 <==> c !in s
    decreases |s|
  {
    if s == [] then 0 else (if s[0] == c then 1 else 0) + Count(c, s[1..])
  }

  lemma {:induction false} CountAppend(c: char, a: string, b: string)
    ensures Count(c, a + b) == Count(c, a) + Count(c, b)
    decreases |a|
  {
    if a != [] {
      calc {
        Count(c, a + b);
        (if (a + b)[0] == c then 1 else 0) + Count(c, (a + b)[1..]);
        { assert (a + b)[0] == a[0]; assert (a + b)[1..] == a[1..] + b; }
        (if a[0] == c then 1 else 0) + Count(c, a[1..] + b);
        { CountAppend(c, a[1..], b); }
        Count(c, a) + Count(c, b);
      }
    } else {
      assert a + b == b;
    }
  }

  /** Counting in a prefix never gives more than counting in a longer prefix. */
  lemma CountPrefixMonotone(c: char, s: string, i: nat, j: nat)
    requires i <= j <= |s|
    ensures Count(c, s[..i]) <= Count(c, s[..j])
  {
    assert s[..j] == s[..i] + s[i..j];
    CountAppend(c, s[..i], s[i..j]);
  }

  /** Counting in a slice never gives more than counting in the whole string. */
  lemma CountSlice(c: char, s: string, i: nat, j: nat)
    requires i <= j <= |s|
    ensures Count(c, s[i..j]) <= Count(c, s)
  {
    assert s == s[..i] + s[i..j] + s[j..];
    CountAppend(c, s[..i] + s[i..j], s[j..]);
    CountAppend(c, s[..i], s[i..j]);
  }

  /** A suffix holds no more occurrences than the whole string. */
  lemma CountSuffixOf(c: char, a: string, b: string)
    requires SuffixOf(a, b)
    ensures Count(c, a) <= Count(c, b)
  {
    var k := |b| - |a|;
    assert b == b[..k] + a;
    CountAppend(c, b[..k], a);
  }

  /** A prefix holds no more occurrences than the whole string. */
  lemma CountPrefixOf(c: char, a: string, b: string)
    requires PrefixOf(a, b)
    ensures Count(c, a) <= Count(c, b)
  {
    CountSlice(c, b, 0, |a|);
  }

  /** split('\n') yields one piece more than there are line feeds. */
  lemma {:induction false} SplitLength(s: string)
    ensures |Split(s)| == Count('\n', s) + 1
    decreases |s|
  {
    if s != [] { SplitLength(s[1..]); }
  }

  lemma {:induction false} SplitOfLine(a: string)
    requires IsLine(a)
    ensures Split(a) == [a]
    decreases |a|
  {
    if a != [] {
      SplitOfLine(a[1..]);
      assert [a[0]] + a[1..] == a;
    }
  }

  lemma {:induction false} SplitAfterLine(a: string, b: string)
    requires IsLine(a)
    ensures Split(a + "\n" + b) == [a] + Split(b)
    decreases |a|
  {
    var s := a + "\n" + b;
    if a == [] {
      assert s[1..] == b;
    } else {
      assert s[1..] == a[1..] + "\n" + b;
      SplitAfterLine(a[1..], b);
      assert [a[0]] + a[1..] == a;
    }
  }

  /** Joining lines with '\n' and splitting again gives the lines back. */
  lemma {:induction false} SplitJoin(lines: seq<string>)
    requires |lines| >= 1
    requires forall k :: 0 <= k < |lines| ==> IsLine(lines[k])
    ensures Split(Join(lines)) == lines
    decreases |lines|
  {
    if |lines| == 1 {
      SplitOfLine(lines[0]);
    } else {
      SplitJoin(lines[1..]);
      SplitAfterLine(lines[0], Join(lines[1..]));
      assert [lines[0]] + lines[1..] == lines;
    }
  }

  /** Joining with one more line at the end. */
  lemma {:induction false} JoinSnoc(lines: seq<string>, x: string)
    requires |lines| >= 1
    ensures Join(lines + [x]) == Join(lines) + "\n" + x
    decreases |lines|
  {
    if |lines| == 1 {
      assert (lines + [x])[1..] == [x];
    } else {
      assert (lines + [x])[1..] == lines[1..] + [x];
      JoinSnoc(lines[1..], x);
    }
  }

  /** Joining k lines that hold no line feed puts exactly k - 1 line feeds in the text. */
  lemma {:induction false} CountJoin(lines: seq<string>)
    requires |lines| >= 1
    requires forall k :: 0 <= k < |lines| ==> IsLine(lines[k])
    ensures Count('\n', Join(lines)) == |lines| - 1
    decreases |lines|
  {
    if |lines| > 1 {
      CountJoin(lines[1..]);
      CountAppend('\n', lines[0] + "\n", Join(lines[1..]));
      CountAppend('\n', lines[0], "\n");
    }
  }

  // ---------------------------------------------------------------- searching

  /** `needle` occurs in `s` starting at index `i`. */
  predicate OccursAt(s: string, needle: string, i: nat) {
    i + |needle| <= |s| && s[i..i + |needle|] == needle
  }

  /** `s.indexOf(needle, from)`: the first occurrence at or after `from`, or -1. */
  function IndexOfFrom(s: string, needle: string, from: nat): (r: int)
    ensures r == -1 || (from <= r && OccursAt(s, needle, r))
    ensures r == -1 ==> forall i :: from <= i ==> !OccursAt(s, needle, i)
    ensures r >= 0 ==> forall i :: from <= i < r ==> !OccursAt(s, needle, i)
    decreases |s| - from
  {
    if from + |needle| > |s| then -1
    else if OccursAt(s, needle, from) then from
    else IndexOfFrom(s, needle, from + 1)
  }

  /** `s.indexOf(needle)`. */
  function IndexOf(s: string, needle: string): int {
    IndexOfFrom(s, needle, 0)
  }

  /** `s.includes(needle)`. */
  predicate Contains(s: string, needle: string) {
    IndexOf(s, needle) >= 0
  }

  predicate StartsWith(s: string, prefix: string) {
    |prefix| <= |s| && s[..|prefix|] == prefix
  }

  /** A string that starts with a prefix starts with the prefix's first character. */
  lemma StartsWithFirst(s: string, prefix: string)
    requires |prefix| > 0 && StartsWith(s, prefix)
    ensures s[0] == prefix[0]
  {
    assert s[..|prefix|][0] == s[0];
  }

  predicate EndsWith(s: string, suffix: string) {
    |suffix| <= |s| && s[|s| - |suffix|..] == suffix
  }

  /** `s.substring(0, n)` for a non-negative `n`. */
  function Take(s: string, n: nat): (r: string)
    ensures |r| == if n < |s| then n else |s|
    ensures StartsWith(s, r)
  {
    if n < |s| then s[..n] else s
  }

  // ---------------------------------------------------------------- case mapping (ASCII)

  predicate IsAsciiLetter(c: char) {
    ('a' <= c <= 'z') || ('A' <= c <= 'Z')
  }

  function UpperChar(c: char): char {
    if 'a' <= c <= 'z' then (c as int - 32) as char else c
  }

  function LowerChar(c: char): char {
    if 'A' <= c <= 'Z' then (c as int + 32) as char else c
  }

  /** `s.toUpperCase()` on ASCII letters. */
  function Upper(s: string): (r: string)
    ensures |r| == |s|
    ensures forall k :: 0 <= k < |s| ==> r[k] == UpperChar(s[k])
  {
    seq(|s|, k requires 0 <= k < |s| => UpperChar(s[k]))
  }

  /** `s.toLowerCase()` on ASCII letters. */
  function Lower(s: string): (r: string)
    ensures |r| == |s|
    ensures forall k :: 0 <= k < |s| ==> r[k] == LowerChar(s[k])
  {
    seq(|s|, k requires 0 <= k < |s| => LowerChar(s[k]))
  }
}
