/** String operations of Python and JavaScript that the modelled code relies on:
    substring search, `str.split` / `str.join`, ASCII case mapping, decimal
    rendering and parsing of integers. */
module Text {
  import opened Base

  /** `t` occurs in `s` starting at position `i`. */
  predicate OccursAt(s: string, t: string, i: nat) {
    i + |t| <= |s| && s[i..i + |t|] == t
  }

  /** Python's `t in s`, JavaScript's `s.includes(t)`. */
  predicate Contains(s: string, t: string) {
    exists i: nat :: i <= |s| && OccursAt(s, t, i)
  }

  /** Python's `s.startswith(p)`. */
  predicate StartsWith(s: string, p: string) {
    |p| <= |s| && s[..|p|] == p
  }

  /** A one-character needle occurs exactly where that character stands. */
  lemma OccursAtChar(s: string, c: char, i: nat)
    ensures OccursAt(s, [c], i) <==> i < |s| && s[i] == c
  {
    if i < |s| {
      assert s[i..i + 1] == [s[i]];
    }
  }

  /** First position at or after `k` where `t` occurs. */
  function IndexFrom(s: string, t: string, k: nat): (r: Option<nat>)
    ensures r.Some? ==> k <= r.value && OccursAt(s, t, r.value)
    ensures forall j: nat :: k <= j && (r.None? || j < r.value) ==> !OccursAt(s, t, j)
    decreases |s| - k
  {
    if k + |t| > |s| then None
    else if s[k..k + |t|] == t then Some(k)
    else IndexFrom(s, t, k + 1)
  }

  /** Python's `s.find(t)`, with `None` for -1: the first occurrence of `t`. */
  function IndexOf(s: string, t: string): (r: Option<nat>)
    ensures r.Some? ==> OccursAt(s, t, r.value)
    ensures r.Some? ==> forall j: nat :: j < r.value ==> !OccursAt(s, t, j)
    ensures r.None? <==> !Contains(s, t)
  {
    IndexFrom(s, t, 0)
  }

  /** The text before the first `sep`, or all of `s` when there is none. */
  function Before(s: string, sep: string): (r: string)
  {
    match IndexOf(s, sep)
    case Some(i) => s[..i]
    case None => s
  }

  /** Python's `sep.join(parts)`. */
  function Join(parts: seq<string>, sep: string): string
  {
    if |parts| == 0 then ""
    else if |parts| == 1 then parts[0]
    else parts[0] + sep + Join(parts[1..], sep)
  }

  /** Text before the first occurrence of a needle does not contain it. */
  lemma PrefixBeforeFirstLacks(s: string, t: string, i: nat)
    requires |t| > 0 && i <= |s|
    requires forall j: nat :: j < i ==> !OccursAt(s, t, j)
    ensures !Contains(s[..i], t)
  {
    if Contains(s[..i], t) {
      var j: nat :| j <= i && OccursAt(s[..i], t, j);
      assert s[..i][j..j + |t|] == s[j..j + |t|];
      assert OccursAt(s, t, j);
      assert false;
    }
  }

  /** Python's `s.split(sep)` for a non-empty separator: the pieces between
      successive non-overlapping occurrences, scanning from the left. */
  function Split(s: string, sep: string): (parts: seq<string>)
    requires |sep| > 0
    ensures |parts| >= 1
    ensures |parts| == 1 <==> !Contains(s, sep)
    ensures Join(parts, sep) == s
    ensures forall k :: 0 <= k < |parts| ==> !Contains(parts[k], sep)
    ensures Contains(s, sep) ==> parts[0] == s[..IndexOf(s, sep).value]
    decreases |s|
  {
    match IndexOf(s, sep)
    case None => [s]
    case Some(i) =>
      var rest := Split(s[i + |sep|..], sep);
      SplitStep(s, sep, i, rest);
      [s[..i]] + rest
  }

  /** One step of `Split`: the piece before the first separator, then the
      pieces of the rest. */
  lemma SplitStep(s: string, sep: string, i: nat, rest: seq<string>)
    requires |sep| > 0 && IndexOf(s, sep) == Some(i)
    requires |rest| >= 1 && Join(rest, sep) == s[i + |sep|..]
    requires forall k :: 0 <= k < |rest| ==> !Contains(rest[k], sep)
    ensures Join([s[..i]] + rest, sep) == s
    ensures forall k :: 0 <= k < |[s[..i]] + rest| ==> !Contains(([s[..i]] + rest)[k], sep)
  {
    SplitStepJoin(s, sep, i, rest);
    SplitStepParts(s, sep, i, rest);
  }

  lemma SplitStepParts(s: string, sep: string, i: nat, rest: seq<string>)
    requires |sep| > 0 && IndexOf(s, sep) == Some(i)
    requires forall k :: 0 <= k < |rest| ==> !Contains(rest[k], sep)
    ensures forall k :: 0 <= k < |[s[..i]] + rest| ==> !Contains(([s[..i]] + rest)[k], sep)
  {
    var head := s[..i];
    PrefixBeforeFirstLacks(s, sep, i);
    var parts := [head] + rest;
    forall k | 0 <= k < |parts| ensures !Contains(parts[k], sep) {
      if k > 0 {
        assert parts[k] == rest[k - 1];
      }
    }
  }

  lemma SplitStepJoin(s: string, sep: string, i: nat, rest: seq<string>)
    requires |sep| > 0 && IndexOf(s, sep) == Some(i)
    requires |rest| >= 1 && Join(rest, sep) == s[i + |sep|..]
    ensures Join([s[..i]] + rest, sep) == s
  {
    JoinCons(s[..i], rest, sep);
    AroundOccurrence(s, sep, i);
  }

  /** A string is the text before an occurrence, the occurrence, and the text after it. */
  lemma AroundOccurrence(s: string, t: string, i: nat)
    requires OccursAt(s, t, i)
    ensures s[..i] + t + s[i + |t|..] == s
  {
    assert s == s[..i] + s[i..i + |t|] + s[i + |t|..];
  }

  /** Every line break becomes the HTML break `<br>`; nothing else changes. */
  function ReplaceNewlines(s: string): string
  {
    if |s| == 0 then ""
    else (if s[0] == '\n' then "<br>" else [s[0]]) + ReplaceNewlines(s[1..])
  }

  lemma {:induction false} ReplaceNewlinesConcat(a: string, b: string)
    ensures ReplaceNewlines(a + b) == ReplaceNewlines(a) + ReplaceNewlines(b)
    decreases |a|
  {
    if |a| > 0 {
      assert (a + b)[1..] == a[1..] + b;
      ReplaceNewlinesConcat(a[1..], b);
    } else {
      assert a + b == b;
    }
  }

  lemma {:induction false} ReplaceNewlinesIdentity(a: string)
    requires !Contains(a, "\n")
    ensures ReplaceNewlines(a) == a
    decreases |a|
  {
    if |a| > 0 {
      OccursAtChar(a, '\n', 0);
      if Contains(a[1..], "\n") {
        var j: nat :| j <= |a[1..]| && OccursAt(a[1..], "\n", j);
        OccursAtChar(a[1..], '\n', j);
        OccursAtChar(a, '\n', j + 1);
      }
      ReplaceNewlinesIdentity(a[1..]);
    }
  }

  /** `"<br>".join(s.split("\n"))`, the idiom of the subprocess wrappers, is
      exactly the replacement of every line break by `<br>`. */
  lemma {:induction false} NewlinesToBreaks(s: string)
    ensures Join(Split(s, "\n"), "<br>") == ReplaceNewlines(s)
    decreases |s|
  {
    var idx := IndexOf(s, "\n");
    if idx.None? {
      ReplaceNewlinesIdentity(s);
    } else {
      var i := idx.value;
      var tail := s[i + 1..];
      NewlinesToBreaks(tail);
      BreakAt(s, i);
    }
  }

  /** One step of `NewlinesToBreaks`: the first line break sits at `i`. */
  lemma BreakAt(s: string, i: nat)
    requires IndexOf(s, "\n") == Some(i)
    requires Join(Split(s[i + 1..], "\n"), "<br>") == ReplaceNewlines(s[i + 1..])
    ensures Join(Split(s, "\n"), "<br>") == ReplaceNewlines(s)
  {
    JoinAtFirstBreak(s, i);
    ReplaceAtFirstBreak(s, i);
  }

  lemma JoinAtFirstBreak(s: string, i: nat)
    requires IndexOf(s, "\n") == Some(i)
    ensures Join(Split(s, "\n"), "<br>") == s[..i] + "<br>" + Join(Split(s[i + 1..], "\n"), "<br>")
  {
    SplitUnfold(s, "\n", i);
    JoinCons(s[..i], Split(s[i + 1..], "\n"), "<br>");
  }

  lemma ReplaceAtFirstBreak(s: string, i: nat)
    requires IndexOf(s, "\n") == Some(i)
    ensures ReplaceNewlines(s) == s[..i] + "<br>" + ReplaceNewlines(s[i + 1..])
  {
    var head, tail := s[..i], s[i + 1..];
    PrefixBeforeFirstLacks(s, "\n", i);
    ReplaceNewlinesIdentity(head);
    OccursAtChar(s, '\n', i);
    var brk := [s[i]] + tail;
    assert brk[1..] == tail;
    assert s == head + brk;
    ReplaceNewlinesConcat(head, brk);
  }

  lemma SplitUnfold(s: string, sep: string, i: nat)
    requires |sep| > 0 && IndexOf(s, sep) == Some(i)
    ensures Split(s, sep) == [s[..i]] + Split(s[i + |sep|..], sep)
  {
  }

  lemma JoinCons(a: string, rest: seq<string>, sep: string)
    requires |rest| >= 1
    ensures Join([a] + rest, sep) == a + sep + Join(rest, sep)
  {
    assert ([a] + rest)[1..] == rest;
  }

  /** A one-character needle is absent exactly when no position holds it. */
  lemma LacksChar(s: string, c: char)
    ensures !Contains(s, [c]) <==> forall i :: 0 <= i < |s| ==> s[i] != c
  {
    forall i: nat | i <= |s| ensures OccursAt(s, [c], i) <==> i < |s| && s[i] == c {
      OccursAtChar(s, c, i);
    }
  }

  /** Joining parts that lack a character with a separator that lacks it
      gives a text that lacks it. */
  lemma {:induction false} JoinLacks(parts: seq<string>, sep: string, c: char)
    requires forall k :: 0 <= k < |parts| ==> !Contains(parts[k], [c])
    requires !Contains(sep, [c])
    ensures !Contains(Join(parts, sep), [c])
    decreases |parts|
  {
    if |parts| == 1 {
      assert Join(parts, sep) == parts[0];
    } else if |parts| >= 2 {
      JoinLacks(parts[1..], sep, c);
      var rest := Join(parts[1..], sep);
      LacksChar(parts[0], c);
      LacksChar(sep, c);
      LacksChar(rest, c);
      var s := parts[0] + sep + rest;
      assert Join(parts, sep) == s;
      forall i | 0 <= i < |s| ensures s[i] != c {
        if i < |parts[0]| {
          assert s[i] == parts[0][i];
        } else if i < |parts[0]| + |sep| {
          assert s[i] == sep[i - |parts[0]|];
        } else {
          assert s[i] == rest[i - |parts[0]| - |sep|];
        }
      }
      LacksChar(s, c);
    }
  }

  /** A joined list starts with its first part. */
  lemma {:induction false} JoinStartsWithFirst(parts: seq<string>, sep: string)
    requires |parts| >= 1
    ensures StartsWith(Join(parts, sep), parts[0])
  {
    if |parts| > 1 {
      JoinCons(parts[0], parts[1..], sep);
      assert [parts[0]] + parts[1..] == parts;
    }
  }

  /** When `sep` occurs, `s.split(sep)[1]` exists and is a prefix of the text
      after the first `sep`. */
  lemma SplitSecond(s: string, sep: string)
    requires |sep| > 0 && Contains(s, sep)
    ensures |Split(s, sep)| >= 2
    ensures StartsWith(s[IndexOf(s, sep).value + |sep|..], Split(s, sep)[1])
  {
    var i := IndexOf(s, sep).value;
    SplitUnfold(s, sep, i);
    var rest := Split(s[i + |sep|..], sep);
    assert Split(s, sep)[1] == rest[0];
    JoinStartsWithFirst(rest, sep);
  }

  /** `s.split(sep)[0]` is a prefix of `s`. */
  lemma SplitFirst(s: string, sep: string)
    requires |sep| > 0
    ensures StartsWith(s, Split(s, sep)[0])
  {
    JoinStartsWithFirst(Split(s, sep), sep);
  }

  /** Whatever contains `a + t + b` contains `t`. */
  lemma ContainsInner(s: string, a: string, t: string, b: string)
    requires Contains(s, a + t + b)
    ensures Contains(s, t)
  {
    var i: nat :| i <= |s| && OccursAt(s, a + t + b, i);
    var w := s[i..i + |a + t + b|];
    assert w == a + t + b;
    assert forall k :: 0 <= k < |t| ==> s[i + |a| + k] == w[|a| + k] == (a + t + b)[|a| + k] == t[k];
    assert s[i + |a|..i + |a| + |t|] == t;
    assert OccursAt(s, t, i + |a|);
  }

  /** Splitting at a one-character separator undoes joining pieces that do
      not contain it. */
  lemma {:induction false} SplitJoin(parts: seq<string>, c: char)
    requires |parts| >= 1
    requires forall k :: 0 <= k < |parts| ==> !Contains(parts[k], [c])
    ensures Split(Join(parts, [c]), [c]) == parts
    decreases |parts|
  {
    if |parts| == 1 {
      assert Join(parts, [c]) == parts[0];
    } else {
      var a, rest := parts[0], parts[1..];
      var s := Join(parts, [c]);
      JoinCons(a, rest, [c]);
      assert [a] + rest == parts;
      FirstSeparatorAfter(a, Join(rest, [c]), c);
      assert s[|a| + 1..] == Join(rest, [c]);
      assert s[..|a|] == a;
      SplitJoin(rest, c);
      SplitUnfold(s, [c], |a|);
    }
  }

  lemma FirstSeparatorAfter(a: string, b: string, c: char)
    requires !Contains(a, [c])
    ensures IndexOf(a + [c] + b, [c]) == Some(|a|)
  {
    var s := a + [c] + b;
    OccursAtChar(s, c, |a|);
    var r := IndexOf(s, [c]);
    OccursAtChar(s, c, r.value);
    if r.value < |a| {
      OccursAtChar(a, c, r.value);
      assert false;
    }
  }

  // ---- ASCII case mapping (Python `str.lower` / `str.upper` restricted to ASCII)

  function LowerChar(c: char): char {
    if 'A' <= c <= 'Z' then (c as int + 32) as char else c
  }

  function UpperChar(c: char): char {
    if 'a' <= c <= 'z' then (c as int - 32) as char else c
  }

  function Lower(s: string): (r: string)
    ensures |r| == |s|
  {
    seq(|s|, k requires 0 <= k < |s| => LowerChar(s[k]))
  }

  function Upper(s: string): (r: string)
    ensures |r| == |s|
  {
    seq(|s|, k requires 0 <= k < |s| => UpperChar(s[k]))
  }

  /** `re.sub(r'[^A-Z]', '', s)`: keeps only the capital ASCII letters, in order. */
  function CapitalsOnly(s: string): (r: string)
    ensures forall k :: 0 <= k < |r| ==> 'A' <= r[k] <= 'Z'
    ensures |r| <= |s|
  {
    if |s| == 0 then ""
    else (if 'A' <= s[0] <= 'Z' then [s[0]] else "") + CapitalsOnly(s[1..])
  }

  // ---- decimal rendering and parsing of integers (Python `str(int)` / `int(str)`)

  predicate IsDigit(c: char) {
    '0' <= c <= '9'
  }

  predicate AllDigits(s: string) {
    forall k :: 0 <= k < |s| ==> IsDigit(s[k])
  }

  function DigitChar(d: nat): (c: char)
    requires d < 10
    ensures IsDigit(c)
  {
    ('0' as int + d) as char
  }

  function DigitValue(c: char): (d: nat)
    requires IsDigit(c)
    ensures d < 10
  {
    c as int - '0' as int
  }

  /** Decimal rendering of a natural number, no leading zeros. */
  function NatToString(n: nat): (s: string)
    ensures |s| >= 1 && AllDigits(s)
    decreases n
  {
    if n < 10 then [DigitChar(n)] else NatToString(n / 10) + [DigitChar(n % 10)]
  }

  /** Value of a string of decimal digits. */
  function ParseDigits(s: string): nat
    requires AllDigits(s)
    decreases |s|
  {
    if |s| == 0 then 0 else ParseDigits(s[..|s| - 1]) * 10 + DigitValue(s[|s| - 1])
  }

  lemma {:induction false} ParseNatToString(n: nat)
    ensures ParseDigits(NatToString(n)) == n
    decreases n
  {
    var s := NatToString(n);
    if n >= 10 {
      ParseNatToString(n / 10);
      assert s[..|s| - 1] == NatToString(n / 10);
    }
  }

  /** Python's `str(i)` for an integer. */
  function IntToString(i: int): (s: string)
    ensures |s| >= 1
    ensures forall k :: 0 <= k < |s| ==> s[k] == '-' || IsDigit(s[k])
  {
    if i < 0 then "-" + NatToString(-i) else NatToString(i)
  }

  /** Reads back the canonical forms `d+` and `-d+` that `str(int)` produces;
      `None` for any other text. This is not Python's full `int()`, which also
      takes signs, surrounding blanks and `_` separators. */
  function ParseInt(s: string): Option<int>
  {
    if |s| >= 2 && s[0] == '-' && AllDigits(s[1..]) then Some(0 - ParseDigits(s[1..]))
    else if |s| >= 1 && AllDigits(s) then Some(ParseDigits(s))
    else None
  }

  /** `int(str(i)) == i`. */
  lemma ParseIntToString(i: int)
    ensures ParseInt(IntToString(i)) == Some(i)
  {
    var s := IntToString(i);
    if i < 0 {
      assert s[1..] == NatToString(-i);
      ParseNatToString(-i);
    } else {
      ParseNatToString(i);
      assert s[0] != '-';
    }
  }

  /** Distinct integers render to distinct strings. */
  lemma IntToStringInjective(a: int, b: int)
    requires IntToString(a) == IntToString(b)
    ensures a == b
  {
    ParseIntToString(a);
    ParseIntToString(b);
  }

  /** Position of the last `c` in `s`, the split point of `s.rsplit(c, 1)`. */
  function LastIndexOfChar(s: string, c: char): (r: Option<nat>)
    ensures r.Some? ==> r.value < |s| && s[r.value] == c
    ensures r.Some? ==> forall j :: r.value < j < |s| ==> s[j] != c
    ensures r.None? ==> forall j :: 0 <= j < |s| ==> s[j] != c
    decreases |s|
  {
    if |s| == 0 then None
    else if s[|s| - 1] == c then Some(|s| - 1)
    else LastIndexOfChar(s[..|s| - 1], c)
  }

  /** Python's `os.path.join(a, b)` on POSIX for two parts: an absolute `b`
      replaces `a`; otherwise a `/` is inserted unless `a` is empty or already
      ends with one. */
  function PathJoin(a: string, b: string): (r: string)
    ensures StartsWith(b, "/") ==> r == b
    ensures !StartsWith(b, "/") && (a == [] || a[|a| - 1] == '/') ==> r == a + b
    ensures !StartsWith(b, "/") && a != [] && a[|a| - 1] != '/' ==> r == a + "/" + b
  {
    if StartsWith(b, "/") then b
    else if a == [] || a[|a| - 1] == '/' then a + b
    else a + "/" + b
  }

  /** Joining a directory and a file name gives a path whose last component
      is that file name (the text after its last `/`) and which lies under the
      directory: `basename(join(a, f)) == f`. */
  lemma JoinedFileName(a: string, f: string)
    requires f != [] && forall k :: 0 <= k < |f| ==> f[k] != '/'
    ensures var r := PathJoin(a, f);
            && (|r| > |f| <==> a != [])
            && r[|r| - |f|..] == f
            && LastIndexOfChar(r, '/') == (if a == [] then None else Some(|r| - |f| - 1))
            && StartsWith(r, a)
  {
    assert f[..1] == [f[0]];
    var r := PathJoin(a, f);
    if a == [] {
      assert r == f;
      LastCharAbsent(f, '/');
    } else {
      var p := |r| - |f| - 1;
      assert r == (if a[|a| - 1] == '/' then a[..|a| - 1] else a) + "/" + f;
      assert r[p + 1..] == f;
      LastCharAt(r, '/', p);
      assert r[..|a|] == a;
    }
  }

  lemma LastCharAt(s: string, c: char, p: nat)
    requires p < |s| && s[p] == c
    requires forall j :: p < j < |s| ==> s[j] != c
    ensures LastIndexOfChar(s, c) == Some(p)
  {
  }

  lemma LastCharAbsent(s: string, c: char)
    requires forall j :: 0 <= j < |s| ==> s[j] != c
    ensures LastIndexOfChar(s, c) == None
  {
  }

  // ---- `os.path.expandvars`

  /** A character of the `\w` class of Python's `re.ASCII` mode. */
  predicate IsWordChar(c: char) {
    'A' <= c <= 'Z' || 'a' <= c <= 'z' || '0' <= c <= '9' || c == '_'
  }

  /** The length of the longest prefix of word characters. */
  function WordLength(s: string): (n: nat)
    ensures n <= |s|
    ensures forall k :: 0 <= k < n ==> IsWordChar(s[k])
    ensures n < |s| ==> !IsWordChar(s[n])
  {
    if |s| > 0 && IsWordChar(s[0]) then 1 + WordLength(s[1..]) else 0
  }

  /** POSIX `os.path.expandvars(s)` in the environment `env`: every match of
      `\$(\w+|\{[^}]*\})`, taken from left to right, is replaced by the value
      of the variable it names when that variable is set, and kept as it is
      otherwise. A `$` that starts no match is kept; substituted values are
      not scanned again. */
  function ExpandVars(env: map<string, string>, s: string): string
    decreases |s|
  {
    if |s| == 0 then ""
    else if s[0] == '$' && 1 < |s| && IsWordChar(s[1]) then
      var n := 1 + WordLength(s[1..]);
      var name := s[1..n];
      (if name in env then env[name] else s[..n]) + ExpandVars(env, s[n..])
    else if s[0] == '$' && 1 < |s| && s[1] == '{' && Contains(s[2..], "}") then
      var c := 2 + IndexOf(s[2..], "}").value;
      var name := s[2..c];
      (if name in env then env[name] else s[..c + 1]) + ExpandVars(env, s[c + 1..])
    else [s[0]] + ExpandVars(env, s[1..])
  }

  /** Text without `$` is returned unchanged. */
  lemma {:induction false} ExpandVarsPlain(env: map<string, string>, s: string)
    requires forall k :: 0 <= k < |s| ==> s[k] != '$'
    ensures ExpandVars(env, s) == s
    decreases |s|
  {
    if |s| > 0 {
      ExpandVarsPlain(env, s[1..]);
    }
  }

  /** A set variable written `${name}` is replaced by its value, and the
      expansion goes on after the closing brace. */
  lemma ExpandBraced(env: map<string, string>, name: string, rest: string)
    requires forall k :: 0 <= k < |name| ==> name[k] != '}'
    requires name in env
    ensures ExpandVars(env, "${" + name + "}" + rest) == env[name] + ExpandVars(env, rest)
  {
    var s := "${" + name + "}" + rest;
    assert s[2..] == name + ['}'] + rest;
    assert !Contains(name, ['}']) by {
      forall i: nat | i <= |name| ensures !OccursAt(name, ['}'], i) {
        OccursAtChar(name, '}', i);
      }
    }
    FirstSeparatorAfter(name, rest, '}');
    assert "}" == ['}'];
    assert s[2..2 + |name|] == name;
    assert s[2 + |name| + 1..] == rest;
  }
}
