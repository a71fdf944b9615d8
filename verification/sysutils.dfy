/** The subprocess and system helpers of `utils.py`: the result dictionary of
    `system_call`, the extraction of a unit's state from `systemctl status`,
    the status table of all watched services and the choice of the device's
    IPv4 address. The process, the socket calls and the name lookup are not
    modelled: their outcomes are parameters. */
module SysUtils {
  import opened Base
  import opened Text

  // ---- the result dictionary

  /** `{'success', 'returncode', 'stdout', 'stderr'}`; a `None` field is Python's `None`. */
  datatype Resp = Resp(success: bool, returncode: Option<int>, stdout: Option<string>, stderr: Option<string>)

  /** The dictionary `_resp_dict()` builds when no keyword is passed. */
  const Defaults: Resp := Resp(false, None, None, None)

  /** Keyword arguments of `_resp_dict(**kwargs)`: `None` means "not passed";
      `Some(v)` passes the value `v`, which may itself be Python's `None`. */
  datatype Overrides = Overrides(success: Option<bool>, returncode: Option<Option<int>>,
                                 stdout: Option<Option<string>>, stderr: Option<Option<string>>)

  const NoOverrides: Overrides := Overrides(None, None, None, None)

  function Pick<T>(passed: Option<T>, default: T): T {
    if passed.Some? then passed.value else default
  }

  /** `_resp_dict(**kwargs)`: the defaults, with every passed keyword winning. */
  function RespDict(kw: Overrides): (r: Resp)
    ensures kw.success.Some? ==> r.success == kw.success.value
    ensures kw.returncode.Some? ==> r.returncode == kw.returncode.value
    ensures kw.stdout.Some? ==> r.stdout == kw.stdout.value
    ensures kw.stderr.Some? ==> r.stderr == kw.stderr.value
    ensures kw.success.None? ==> r.success == Defaults.success
    ensures kw.returncode.None? ==> r.returncode == Defaults.returncode
    ensures kw.stdout.None? ==> r.stdout == Defaults.stdout
    ensures kw.stderr.None? ==> r.stderr == Defaults.stderr
  {
    Resp(Pick(kw.success, false), Pick(kw.returncode, None), Pick(kw.stdout, None), Pick(kw.stderr, None))
  }

  /** Passing every key makes the defaults irrelevant, and passing none gives them. */
  lemma RespDictExtremes(r: Resp)
    ensures RespDict(NoOverrides) == Defaults
    ensures RespDict(Overrides(Some(r.success), Some(r.returncode), Some(r.stdout), Some(r.stderr))) == r
  {
  }

  // ---- one subprocess call

  /** What `p.communicate()` and the `utf-8` decoding come to. A stream of
      `None` holds bytes that are not valid UTF-8, so decoding it raises
      `UnicodeDecodeError`. */
  datatype Communication =
    | Finished(returncode: int, out: Option<string>, err: Option<string>)
    | CommOSError(errno: Option<int>, strerror: Option<string>)   // `communicate` raised `OSError`
    | CommFailed                                                  // any other exception

  /** What `Popen(...)` comes to: it raised `OSError`, or the child was started. */
  datatype Spawn = SpawnOSError | Spawned(comm: Communication)

  predicate Succeeded(sp: Spawn) {
    sp.Spawned? && sp.comm.Finished? && sp.comm.returncode == 0
  }

  /** Both streams decoded. */
  predicate Decodable(c: Communication) {
    c.Finished? && c.out.Some? && c.err.Some?
  }

  /** `"<br>".join(text.split("\n"))`: every line break becomes `<br>`. */
  function BreakLines(text: string): (r: string)
    ensures r == ReplaceNewlines(text)
  {
    NewlinesToBreaks(text);
    Join(Split(text, "\n"), "<br>")
  }

  /** `system_call(cmd, as_dict=True)` without a logger. A spawn failure
      raises `TypeError`, because `_resp_dict('error', e)` passes positional
      arguments to a keyword-only builder; any failure after the spawn other
      than `OSError` raises `AttributeError` when its `errno` is read. */
  function DictCall(sp: Spawn): (r: Result<Resp>)
    ensures sp.SpawnOSError? ==> r == Raise(TypeError)
    ensures sp.Spawned? && Decodable(sp.comm) ==>
              (var c := sp.comm;
               r == Ok(Resp(c.returncode == 0, Some(c.returncode),
                            Some(ReplaceNewlines(c.out.value)), Some(ReplaceNewlines(c.err.value)))))
    ensures sp.Spawned? && sp.comm.CommOSError? ==>
              r == Ok(Resp(false, sp.comm.errno, None, sp.comm.strerror))
    ensures r.Raise? <==> sp.SpawnOSError? || (!sp.comm.CommOSError? && !Decodable(sp.comm))
    ensures r.Raise? && sp.Spawned? ==> r.exc == AttributeError
    ensures r.Ok? ==> (r.value.success <==> Succeeded(sp))
  {
    match sp
    case SpawnOSError => Raise(TypeError)
    case Spawned(c) =>
      match c
      case Finished(code, out, err) =>
        if out.None? || err.None? then Raise(AttributeError)
        else Ok(RespDict(Overrides(Some(code == 0), Some(Some(code)),
                                   Some(Some(BreakLines(out.value))), Some(Some(BreakLines(err.value))))))
      case CommOSError(errno, strerror) => Ok(RespDict(Overrides(None, Some(errno), None, Some(strerror))))
      case CommFailed => Raise(AttributeError)
  }

  /** `system_call(cmd)` without a logger: nothing is decoded and every
      failure is swallowed. */
  function FlagCall(sp: Spawn): (ok: bool)
    ensures ok <==> Succeeded(sp)
  {
    match sp
    case SpawnOSError => false
    case Spawned(c) =>
      match c
      case Finished(code, _, _) => code == 0
      case CommOSError(_, _) => false
      case CommFailed => false
  }

  /** The two modes agree: whenever the dictionary mode returns, its
      `success` is the boolean the flag mode returns. */
  lemma FlagAgreesWithDict(sp: Spawn)
    ensures DictCall(sp).Ok? ==> DictCall(sp).value.success == FlagCall(sp)
  {
  }

  // ---- `systemctl status` text

  const Marker: string := "Active: "

  /** `status.split(' since ')[0]` when `status` mentions `since`. */
  function CutSince(status: string): (r: string)
    ensures StartsWith(status, r) && !Contains(r, " since ")
    ensures Contains(status, " since ") ==> r == status[..IndexOf(status, " since ").value]
    ensures !Contains(status, " since ") ==> r == status
  {
    if Contains(status, "since") then
      SplitFirst(status, " since ");
      Split(status, " since ")[0]
    else
      SinceNeedsSince(status);
      status
  }

  lemma SinceNeedsSince(status: string)
    ensures Contains(status, " since ") ==> Contains(status, "since")
  {
    if Contains(status, " since ") {
      assert " since " == " " + "since" + " ";
      ContainsInner(status, " ", "since", " ");
    }
  }

  /** The state text within one line: `None` when the line has no marker
      (Python's `IndexError` on `[1]`). */
  function StatusInLine(line: string): (r: Option<string>)
    ensures r.None? <==> !Contains(line, Marker)
    ensures r.Some? ==> StartsWith(line[IndexOf(line, Marker).value + |Marker|..], r.value)
    ensures r.Some? ==> !Contains(r.value, " since ")
    ensures r.Some? ==> r.value == Before(Before(line[IndexOf(line, Marker).value + |Marker|..], Marker), " since ")
  {
    var parts := Split(line, Marker);
    if |parts| < 2 then None
    else
      SplitSecond(line, Marker);
      SecondField(line, Marker);
      PrefixOfPrefix(line[IndexOf(line, Marker).value + |Marker|..], parts[1], CutSince(parts[1]));
      Some(CutSince(parts[1]))
  }

  /** `s.split(sep)[1]` is the text between the first and the second `sep`. */
  lemma SecondField(s: string, sep: string)
    requires |sep| > 0 && Contains(s, sep)
    ensures |Split(s, sep)| >= 2
    ensures Split(s, sep)[1] == Before(s[IndexOf(s, sep).value + |sep|..], sep)
  {
    var i := IndexOf(s, sep).value;
    SplitUnfold(s, sep, i);
    var rest := s[i + |sep|..];
    assert Split(s, sep)[1] == Split(rest, sep)[0];
    if !Contains(rest, sep) {
      assert |Split(rest, sep)| == 1;
      assert Join(Split(rest, sep), sep) == Split(rest, sep)[0];
    }
  }

  lemma PrefixOfPrefix(a: string, b: string, c: string)
    requires StartsWith(a, b) && StartsWith(b, c)
    ensures StartsWith(a, c)
  {
    assert a[..|c|] == a[..|b|][..|c|];
  }

  /** The state text of a unit from the `<br>`-joined output of
      `systemctl status`: in the third line, the text after the first
      `Active: `, cut before ` since ` when it mentions `since`. `Ok(None)`
      when there is no output or no marker; `IndexError` when the marker is not
      in the third line. */
  function StatusOf(stdout: Option<string>): (r: Result<Option<string>>)
    ensures r == Ok(None) <==> stdout.None? || !Contains(stdout.value, Marker)
    ensures r.Raise? ==> r.exc == IndexError
    ensures r.Raise? <==> stdout.Some? && Contains(stdout.value, Marker)
                          && (|Split(stdout.value, "<br>")| < 3 || !Contains(Split(stdout.value, "<br>")[2], Marker))
    ensures r.Ok? && r.value.Some? ==>
              (var line := Split(stdout.value, "<br>")[2];
               Contains(line, Marker)
               && StartsWith(line[IndexOf(line, Marker).value + |Marker|..], r.value.value)
               && !Contains(r.value.value, " since ")
               && r.value.value == Before(Before(line[IndexOf(line, Marker).value + |Marker|..], Marker), " since "))
  {
    if stdout.None? || stdout.value == "" || !Contains(stdout.value, Marker) then Ok(None)
    else
      var lines := Split(stdout.value, "<br>");
      if |lines| < 3 then Raise(IndexError)
      else
        match StatusInLine(lines[2])
        case None => Raise(IndexError)
        case Some(status) => Ok(Some(status))
  }

  lemma StatusMissingLine()
    ensures StatusOf(Some("Active: failed")) == Raise(IndexError)
  {
    assert OccursAt("Active: failed", Marker, 0);
  }

  /** `systemd_status(service)`: the service name, its state text and every
      key of the call's dictionary. */
  datatype Report = Report(service: string, status: Option<string>, resp: Resp)

  /** `systemd_status` of `utils.py`: a failing call or extraction raises. */
  function SystemdStatus(service: string, sp: Spawn): (r: Result<Report>)
    ensures r.Ok? <==> DictCall(sp).Ok? && StatusOf(DictCall(sp).value.stdout).Ok?
    ensures r.Ok? ==> r.value.service == service && r.value.resp == DictCall(sp).value
    ensures r.Ok? ==> r.value.status == StatusOf(r.value.resp.stdout).value
    ensures r.Ok? && !Succeeded(sp) && sp.Spawned? && sp.comm.CommOSError? ==> r.value.status.None?
  {
    match DictCall(sp)
    case Raise(e) => Raise(e)
    case Ok(resp) =>
      match StatusOf(resp.stdout)
      case Raise(e) => Raise(e)
      case Ok(status) => Ok(Report(service, status, resp))
  }

  // ---- the status table of all services

  /** The units `utils.py` always watches, in order. */
  const CoreServices: seq<string> := ["pi3ctrl-core.service", "pi3ctrl-http.service",
                                      "pi3ctrl-wifi.service", "nginx.service", "dnsmasq.service",
                                      "hostapd.service", "wpa_supplicant.service"]

  predicate Distinct<T(==)>(xs: seq<T>) {
    forall i, j :: 0 <= i < j < |xs| ==> xs[i] != xs[j]
  }

  /** The elements of `xs` in order of first appearance: the key order of a
      Python `dict` filled by assigning to each of `xs` in turn. */
  function Dedup(xs: seq<string>): (r: seq<string>)
    ensures forall x :: x in r <==> x in xs
    ensures Distinct(r)
    ensures |r| <= |xs|
  {
    if |xs| == 0 then []
    else
      var d := Dedup(xs[..|xs| - 1]);
      assert forall x :: x in xs <==> x in xs[..|xs| - 1] || x == xs[|xs| - 1] by {
        assert xs == xs[..|xs| - 1] + [xs[|xs| - 1]];
      }
      if xs[|xs| - 1] in d then d else d + [xs[|xs| - 1]]
  }

  /** A list without repeats keeps its order and length under `Dedup`. */
  lemma {:induction false} DedupDistinct(xs: seq<string>)
    requires Distinct(xs)
    ensures Dedup(xs) == xs
    decreases |xs|
  {
    if |xs| > 0 {
      var init := xs[..|xs| - 1];
      DedupDistinct(init);
      assert xs == init + [xs[|xs| - 1]];
    }
  }

  /** Later names never move the keys already in the table. */
  lemma {:induction false} DedupPrefix(a: seq<string>, b: seq<string>)
    ensures |Dedup(a)| <= |Dedup(a + b)| && Dedup(a + b)[..|Dedup(a)|] == Dedup(a)
    decreases |b|
  {
    if |b| == 0 {
      assert a + b == a;
    } else {
      var b0 := b[..|b| - 1];
      DedupPrefix(a, b0);
      assert (a + b)[..|a + b| - 1] == a + b0;
    }
  }

  function Keys<V>(d: seq<(string, V)>): (r: seq<string>)
    ensures |r| == |d|
  {
    seq(|d|, i requires 0 <= i < |d| => d[i].0)
  }

  /** Position of key `k` in a dictionary that has it. */
  function KeyIndex<V>(d: seq<(string, V)>, k: string): (i: nat)
    requires k in Keys(d)
    ensures i < |d| && d[i].0 == k
  {
    if d[0].0 == k then 0
    else
      assert Keys(d)[1..] == Keys(d[1..]);
      1 + KeyIndex(d[1..], k)
  }

  /** `d[k] = v` on an insertion-ordered dictionary: an existing key keeps its
      place, a new key goes last. */
  function Put<V>(d: seq<(string, V)>, k: string, v: V): (r: seq<(string, V)>)
    requires Distinct(Keys(d))
    ensures Keys(r) == if k in Keys(d) then Keys(d) else Keys(d) + [k]
    ensures Distinct(Keys(r))
    ensures forall i :: 0 <= i < |r| && r[i].0 == k ==> r[i].1 == v
    ensures forall i :: 0 <= i < |r| && r[i].0 != k ==> r[i] in d
  {
    if k in Keys(d) then
      var i := KeyIndex(d, k);
      var r := d[i := (k, v)];
      assert Keys(r) == Keys(d);
      assert forall j :: 0 <= j < |r| && j != i ==> r[j] == d[j] && Keys(d)[j] != Keys(d)[i];
      r
    else
      assert forall i :: 0 <= i < |d| ==> d[i].0 == Keys(d)[i] != k;
      assert Keys(d + [(k, v)]) == Keys(d) + [k];
      d + [(k, v)]
  }

  /** Every entry holds the report `probe` gives for its own name. */
  predicate Table(d: seq<(string, Report)>, probe: string -> Result<Report>) {
    forall i :: 0 <= i < |d| ==> probe(d[i].0) == Ok(d[i].1)
  }

  lemma PutKeepsTable(d: seq<(string, Report)>, k: string, rep: Report, probe: string -> Result<Report>)
    requires Distinct(Keys(d)) && Table(d, probe) && probe(k) == Ok(rep)
    ensures Table(Put(d, k, rep), probe)
  {
    var r := Put(d, k, rep);
    forall i | 0 <= i < |r|
      ensures probe(r[i].0) == Ok(r[i].1)
    {
      if r[i].0 != k {
        var j :| 0 <= j < |d| && d[j] == r[i];
      }
    }
  }

  lemma DedupSnoc(xs: seq<string>)
    requires |xs| > 0
    ensures Dedup(xs) == if xs[|xs| - 1] in Dedup(xs[..|xs| - 1]) then Dedup(xs[..|xs| - 1])
                         else Dedup(xs[..|xs| - 1]) + [xs[|xs| - 1]]
  {
  }

  /** The loop of `systemd_status_all()`: `d[name] = probe(name)` for each
      name in order. The first failing name's exception escapes; otherwise
      the keys are the names, each once, in order of first appearance. */
  function Collect(names: seq<string>, probe: string -> Result<Report>): (r: Result<seq<(string, Report)>>)
    ensures r.Ok? ==> Keys(r.value) == Dedup(names)
    decreases |names|
  {
    if |names| == 0 then Ok([])
    else
      var init, last := names[..|names| - 1], names[|names| - 1];
      match Collect(init, probe)
      case Raise(e) => Raise(e)
      case Ok(d) =>
        match probe(last)
        case Raise(e) => Raise(e)
        case Ok(rep) =>
          DedupSnoc(names);
          Ok(Put(d, last, rep))
  }

  /** `systemd_status_all()` over the name list `names`; `outcome` gives the
      spawn outcome of `systemctl status` for each name. */
  function SystemdStatusAll(names: seq<string>, outcome: string -> Spawn): (r: Result<seq<(string, Report)>>)
    ensures r.Ok? ==> Keys(r.value) == Dedup(names)
  {
    Collect(names, n => SystemdStatus(n, outcome(n)))
  }

  /** The table is built exactly when every name's status can be read. */
  lemma CollectOk(names: seq<string>, probe: string -> Result<Report>)
    ensures Collect(names, probe).Ok? <==> forall k :: 0 <= k < |names| ==> probe(names[k]).Ok?
  {
    if Collect(names, probe).Ok? {
      forall k | 0 <= k < |names|
        ensures probe(names[k]).Ok?
      {
        ReadEach(names, probe, k);
      }
    } else {
      CollectRaise(names, probe);
    }
  }

  lemma {:induction false} ReadEach(names: seq<string>, probe: string -> Result<Report>, k: nat)
    requires Collect(names, probe).Ok? && k < |names|
    ensures probe(names[k]).Ok?
    decreases |names|
  {
    var init := names[..|names| - 1];
    if k < |init| {
      ReadEach(init, probe, k);
      assert init[k] == names[k];
    }
  }

  /** A failure is the failure of one of the names. */
  lemma {:induction false} CollectRaise(names: seq<string>, probe: string -> Result<Report>)
    requires Collect(names, probe).Raise?
    ensures exists k :: 0 <= k < |names| && probe(names[k]) == Raise(Collect(names, probe).exc)
    decreases |names|
  {
    var init, last := names[..|names| - 1], names[|names| - 1];
    if Collect(init, probe).Raise? {
      CollectRaise(init, probe);
      var k :| 0 <= k < |init| && probe(init[k]) == Raise(Collect(init, probe).exc);
      assert init[k] == names[k];
    } else {
      assert probe(names[|names| - 1]) == Raise(Collect(names, probe).exc);
    }
  }

  /** Every entry of the table holds the report of its own name. */
  lemma {:induction false} CollectTable(names: seq<string>, probe: string -> Result<Report>)
    requires Collect(names, probe).Ok?
    ensures Table(Collect(names, probe).value, probe)
    decreases |names|
  {
    if |names| > 0 {
      var init, last := names[..|names| - 1], names[|names| - 1];
      CollectTable(init, probe);
      PutKeepsTable(Collect(init, probe).value, last, probe(last).value, probe);
    }
  }

  /** For `systemd_status_all()`: the table is built exactly when every
      unit's status can be read, and then holds each unit's own report. */
  lemma SystemdStatusAllOk(names: seq<string>, outcome: string -> Spawn)
    ensures SystemdStatusAll(names, outcome).Ok?
            <==> forall k :: 0 <= k < |names| ==> SystemdStatus(names[k], outcome(names[k])).Ok?
    ensures SystemdStatusAll(names, outcome).Ok? ==>
              forall i :: 0 <= i < |SystemdStatusAll(names, outcome).value| ==>
                (var e := SystemdStatusAll(names, outcome).value[i]; SystemdStatus(e.0, outcome(e.0)) == Ok(e.1))
  {
    var probe := n => SystemdStatus(n, outcome(n));
    CollectOk(names, probe);
    if SystemdStatusAll(names, outcome).Ok? {
      CollectTable(names, probe);
    }
  }

  /** The seven core units come first, each once and in their listed order,
      before any configured extra unit. */
  lemma CoreServicesDistinct()
    ensures Distinct(CoreServices)
  {
    var tags := seq(7, i requires 0 <= i < 7 => (CoreServices[i][0], CoreServices[i][8]));
    assert tags == [('p', 'c'), ('p', 'h'), ('p', 'w'), ('n', 'r'), ('d', 's'), ('h', 's'), ('w', 'l')];
  }

  lemma CoreServicesFirst(extra: seq<string>, outcome: string -> Spawn)
    requires SystemdStatusAll(CoreServices + extra, outcome).Ok?
    ensures var d := SystemdStatusAll(CoreServices + extra, outcome).value;
            |d| >= 7 && Keys(d)[..7] == CoreServices
  {
    CoreServicesDistinct();
    DedupDistinct(CoreServices);
    DedupPrefix(CoreServices, extra);
  }

  // ---- the device's address

  predicate Loopback(ip: string) {
    StartsWith(ip, "127.")
  }

  /** `[ip for ip in ips if not ip.startswith("127.")]`. */
  function NonLoopback(ips: seq<string>): (r: seq<string>)
    ensures forall k :: 0 <= k < |r| ==> !Loopback(r[k]) && r[k] in ips
    ensures forall i :: 0 <= i < |ips| && !Loopback(ips[i]) ==> ips[i] in r
    ensures |r| == 0 <==> forall i :: 0 <= i < |ips| ==> Loopback(ips[i])
  {
    KeptFacts(ips);
    Kept(ips)
  }

  /** The comprehension itself, one element at a time. */
  function Kept(ips: seq<string>): seq<string>
  {
    if |ips| == 0 then []
    else (if Loopback(ips[0]) then [] else [ips[0]]) + Kept(ips[1..])
  }

  lemma {:induction false} KeptFacts(ips: seq<string>)
    ensures forall k :: 0 <= k < |Kept(ips)| ==> !Loopback(Kept(ips)[k]) && Kept(ips)[k] in ips
    ensures forall i :: 0 <= i < |ips| && !Loopback(ips[i]) ==> ips[i] in Kept(ips)
    ensures |Kept(ips)| == 0 <==> forall i :: 0 <= i < |ips| ==> Loopback(ips[i])
    decreases |ips|
  {
    if |ips| > 0 {
      KeptFacts(ips[1..]);
      assert forall i :: 1 <= i < |ips| ==> ips[i] == ips[1..][i - 1];
    }
  }

  /** The filter keeps list order: filtering a concatenation is
      concatenating the filtered parts. Together with the one-element case
      this determines the kept list completely. */
  lemma NonLoopbackConcat(a: seq<string>, b: seq<string>)
    ensures NonLoopback(a + b) == NonLoopback(a) + NonLoopback(b)
    ensures |a| == 1 ==> NonLoopback(a) == if Loopback(a[0]) then [] else a
  {
    KeptConcat(a, b);
    if |a| == 1 {
      assert a[1..] == [];
    }
  }

  lemma {:induction false} KeptConcat(a: seq<string>, b: seq<string>)
    ensures Kept(a + b) == Kept(a) + Kept(b)
    decreases |a|
  {
    if |a| == 0 {
      assert a + b == b;
    } else {
      assert (a + b)[0] == a[0];
      assert (a + b)[1..] == a[1..] + b;
      KeptConcat(a[1..], b);
    }
  }

  /** The first kept address is the first non-loop-back one of the list. */
  lemma {:induction false} NonLoopbackFirst(ips: seq<string>)
    requires exists i :: 0 <= i < |ips| && !Loopback(ips[i])
    ensures exists i :: 0 <= i < |ips| && NonLoopback(ips)[0] == ips[i]
                        && forall j :: 0 <= j < i ==> Loopback(ips[j])
    decreases |ips|
  {
    if Loopback(ips[0]) {
      var k :| 0 <= k < |ips| && !Loopback(ips[k]);
      assert ips[1..][k - 1] == ips[k];
      NonLoopbackFirst(ips[1..]);
      var i :| 0 <= i < |ips[1..]| && NonLoopback(ips[1..])[0] == ips[1..][i]
               && forall j :: 0 <= j < i ==> Loopback(ips[1..][j]);
      assert forall j :: 1 <= j < i + 1 ==> ips[j] == ips[1..][j - 1];
      assert NonLoopback(ips)[0] == ips[i + 1];
    } else {
      assert NonLoopback(ips)[0] == ips[0];
    }
  }

  /** `get_ipv4_address()`. `lookup` holds the host's addresses from
      `gethostbyname_ex`, `None` when the lookup raises `OSError`; `probe` is
      the local address of the UDP socket, `None` when that raises. */
  function GetIpv4Address(lookup: Option<seq<string>>, probe: Option<string>): (ip: string)
    ensures lookup.Some? && (exists i :: 0 <= i < |lookup.value| && !Loopback(lookup.value[i])) ==>
              exists i :: 0 <= i < |lookup.value| && ip == lookup.value[i] && !Loopback(ip)
                          && forall j :: 0 <= j < i ==> Loopback(lookup.value[j])
    ensures lookup.None? ==> ip == "127.0.0.1"
    ensures lookup.Some? && (forall i :: 0 <= i < |lookup.value| ==> Loopback(lookup.value[i])) ==>
              ip == (if probe.Some? && probe.value != "" then probe.value else "127.0.0.1")
  {
    match lookup
    case None => "127.0.0.1"
    case Some(ips) =>
      var kept := NonLoopback(ips);
      if |kept| > 0 then
        NonLoopbackFirst(ips);
        kept[0]
      else if probe.Some? && probe.value != "" then probe.value
      else "127.0.0.1"
  }
}
