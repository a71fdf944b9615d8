/** Configuration-value expansion and argument normalisation:
    `expand_env`, defined identically in `wifi/hostapd.py` and
    `util/parse_config.py`, and the `filenames` normalisation of
    `parse_config`. The environment and the host name are parameters. */
module Env {
  import opened Base
  import opened Text

  /** The name, upper-cased, with every character outside `A`-`Z` removed:
      `re.sub(r'[^A-Z]', '', var.upper())`. */
  function Letters(v: string): string {
    CapitalsOnly(Upper(v))
  }

  /** A name that `expand_env` reads as "the host name". */
  predicate HostnameLike(v: string) {
    Letters(v) == "HOSTNAME"
  }

  /** `expand_env(var)`: a host-name-like name gives the host name; otherwise a
      defined environment variable gives its value, and anything else is
      returned unchanged. No `${...}` syntax is interpreted. */
  function ExpandEnv(v: string, environ: map<string, string>, hostname: string): (r: string)
    ensures HostnameLike(v) ==> r == hostname
    ensures !HostnameLike(v) && v in environ ==> r == environ[v]
    ensures !HostnameLike(v) && v !in environ ==> r == v
  {
    if Letters(v) == "HOSTNAME" then hostname
    else if v in environ then environ[v]
    else v
  }

  // ---- what the host-name test ignores

  lemma {:induction false} CapitalsOnlyAppend(a: string, b: string)
    ensures CapitalsOnly(a + b) == CapitalsOnly(a) + CapitalsOnly(b)
    decreases |a|
  {
    if |a| == 0 {
      assert a + b == b;
    } else {
      assert (a + b)[1..] == a[1..] + b;
      CapitalsOnlyAppend(a[1..], b);
    }
  }

  lemma UpperAppend(a: string, b: string)
    ensures Upper(a + b) == Upper(a) + Upper(b)
  {
  }

  lemma LettersAppend(a: string, b: string)
    ensures Letters(a + b) == Letters(a) + Letters(b)
  {
    UpperAppend(a, b);
    CapitalsOnlyAppend(Upper(a), Upper(b));
  }

  predicate IsLetter(c: char) {
    'A' <= c <= 'Z' || 'a' <= c <= 'z'
  }

  /** Text without ASCII letters contributes nothing. */
  lemma {:induction false} LettersOfNonLetters(x: string)
    requires forall k :: 0 <= k < |x| ==> !IsLetter(x[k])
    ensures Letters(x) == ""
    decreases |x|
  {
    if |x| > 0 {
      assert Upper(x)[1..] == Upper(x[1..]);
      LettersOfNonLetters(x[1..]);
    }
  }

  /** Inserting digits, punctuation or any other non-letters anywhere does
      not change whether a name is host-name-like. */
  lemma NonLettersIgnored(a: string, x: string, b: string)
    requires forall k :: 0 <= k < |x| ==> !IsLetter(x[k])
    ensures Letters(a + x + b) == Letters(a + b)
    ensures HostnameLike(a + x + b) <==> HostnameLike(a + b)
  {
    LettersAppend(a + x, b);
    LettersAppend(a, x);
    LettersAppend(a, b);
    LettersOfNonLetters(x);
  }

  /** Lower-casing a name does not change whether it is host-name-like. */
  lemma CaseIgnored(v: string)
    ensures Letters(Lower(v)) == Letters(v)
    ensures HostnameLike(Lower(v)) <==> HostnameLike(v)
  {
    assert Upper(Lower(v)) == Upper(v);
  }

  predicate Capitals(s: string) {
    forall k :: 0 <= k < |s| ==> 'A' <= s[k] <= 'Z'
  }

  lemma UpperOfCapitals(s: string)
    requires Capitals(s)
    ensures Upper(s) == s
  {
    assert forall k :: 0 <= k < |s| ==> Upper(s)[k] == UpperChar(s[k]) == s[k];
  }

  lemma {:induction false} CapitalsOnlyOfCapitals(s: string)
    requires Capitals(s)
    ensures CapitalsOnly(s) == s
    decreases |s|
  {
    if |s| > 0 {
      var t := s[1..];
      forall k | 0 <= k < |t|
        ensures 'A' <= t[k] <= 'Z'
      {
        assert t[k] == s[k + 1];
      }
      CapitalsOnlyOfCapitals(t);
      assert s == [s[0]] + t;
    }
  }

  /** A name made of capitals is its own letter form. */
  lemma LettersOfCapitals(s: string)
    requires Capitals(s)
    ensures Letters(s) == s
  {
    UpperOfCapitals(s);
    CapitalsOnlyOfCapitals(s);
  }

  /** `Letters(a + x + b)` where `a` and `b` are capitals and `x` has no letters. */
  lemma Wrapped(a: string, x: string, b: string)
    requires Capitals(a) && Capitals(b) && forall k :: 0 <= k < |x| ==> !IsLetter(x[k])
    ensures Letters(a + x + b) == a + b
  {
    NonLettersIgnored(a, x, b);
    LettersAppend(a, b);
    LettersOfCapitals(a);
    LettersOfCapitals(b);
  }

  lemma HostnameCapitals()
    ensures Capitals("HOSTNAME") && Capitals("HOST") && Capitals("NAME")
  {
  }

  /** A braced name of capitals reads as the name itself. */
  lemma Braced(x: string)
    requires Capitals(x)
    ensures Letters("${" + x + "}") == x
  {
    Wrapped("", "${", x);
    assert "" + "${" + x == "${" + x;
    NonLettersIgnored("${" + x, "}", "");
    assert "${" + x + "}" + "" == "${" + x + "}" && "${" + x + "" == "${" + x;
  }

  /** The configured default `${HOSTNAME}` expands to the host name. */
  lemma DefaultExpandsToHost(environ: map<string, string>, hostname: string)
    ensures ExpandEnv("${HOSTNAME}", environ, hostname) == hostname
  {
    HostnameCapitals();
    Braced("HOSTNAME");
    assert "${" + "HOSTNAME" + "}" == "${HOSTNAME}";
  }

  /** Digits are ignored: `HOSTNAME1` expands to the host name. */
  lemma DigitsIgnored(environ: map<string, string>, hostname: string)
    ensures ExpandEnv("HOSTNAME1", environ, hostname) == hostname
  {
    HostnameCapitals();
    Wrapped("HOSTNAME", "1", "");
    assert "HOSTNAME" + "1" + "" == "HOSTNAME1" && "HOSTNAME" + "" == "HOSTNAME";
  }

  /** Case and punctuation are ignored: `host_name` expands to the host name. */
  lemma UnderscoreIgnored(environ: map<string, string>, hostname: string)
    ensures ExpandEnv("host_name", environ, hostname) == hostname
  {
    HostnameCapitals();
    Wrapped("HOST", "_", "NAME");
    assert "HOST" + "_" + "NAME" == "HOST_NAME" && "HOST" + "NAME" == "HOSTNAME";
    CaseIgnored("HOST_NAME");
    LowerHostName();
  }

  lemma LowerHostName()
    ensures Lower("HOST_NAME") == "host_name"
  {
    var s := "HOST_NAME";
    assert forall k :: 0 <= k < |s| ==> Lower(s)[k] == LowerChar(s[k]);
  }

  /** `${HOME}` is not a host-name spelling and is looked up literally. */
  lemma BracedNamesAreLiteral(environ: map<string, string>, hostname: string)
    ensures !HostnameLike("${HOME}")
    ensures ExpandEnv("${HOME}", environ, hostname) == if "${HOME}" in environ then environ["${HOME}"] else "${HOME}"
  {
    assert Capitals("HOME");
    Braced("HOME");
    assert "${" + "HOME" + "}" == "${HOME}";
    assert "HOME" != "HOSTNAME";
  }

  // ---- the `filenames` argument of `parse_config`

  /** The dynamic type of the `filenames` argument. */
  datatype Arg = Str(s: string) | List(items: seq<string>) | Tuple(items: seq<string>) | Other

  /** The list of file names `parse_config` iterates over: a string becomes a
      one-element list, a list or tuple is used as it is, and anything else
      raises `TypeError`. */
  function Filenames(arg: Arg): (r: Result<seq<string>>)
    ensures arg.Str? ==> r == Ok([arg.s])
    ensures arg.List? || arg.Tuple? ==> r == Ok(arg.items)
    ensures r.Raise? <==> arg.Other?
    ensures r.Raise? ==> r.exc == TypeError
  {
    match arg
    case Str(s) => Ok([s])
    case List(items) => Ok(items)
    case Tuple(items) => Ok(items)
    case Other => Raise(TypeError)
  }

  /** Normalising an already normalised argument changes nothing, and a
      single name and the one-element list of it are read alike. */
  lemma FilenamesNormalForm(arg: Arg)
    requires arg.Str? || arg.List? || arg.Tuple?
    ensures Filenames(List(Filenames(arg).value)) == Filenames(arg)
    ensures arg.Str? ==> Filenames(arg) == Filenames(List([arg.s]))
  {
  }
}
