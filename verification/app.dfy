/** The request-handling helpers of the web application (`app/__init__.py`):
    sound-file naming, the upload extension filter, the internal-referer test
    and the order in which three views check their guards. Flask itself is
    abstracted away: a view's reply is a value of `Reply`. */
module App {
  import opened Base
  import opened Text

  // ---- sound-file naming

  /** `soundFile(button, pin)`: the name under which a button's sound is stored. */
  function SoundFile(button: int, pin: int): string
  {
    "soundFile." + IntToString(button) + ".GPIO" + IntToString(pin)
  }

  /** A sound-file name is a plain file name: no `/`, and nothing that
      `os.path.expandvars` would act on. */
  lemma SoundFilePlain(button: int, pin: int)
    ensures SoundFile(button, pin) != []
    ensures forall k :: 0 <= k < |SoundFile(button, pin)| ==>
              SoundFile(button, pin)[k] != '/' && SoundFile(button, pin)[k] != '$'
  {
    var bs := IntToString(button);
    var ps := IntToString(pin);
    var f := SoundFile(button, pin);
    forall k | 0 <= k < |f| ensures f[k] != '/' && f[k] != '$' {
      if k < 10 {
        assert f[k] == "soundFile."[k];
      } else if k < 10 + |bs| {
        assert f[k] == bs[k - 10];
      } else if k < 15 + |bs| {
        assert f[k] == ".GPIO"[k - 10 - |bs|];
      } else {
        assert f[k] == ps[k - 15 - |bs|];
      }
    }
  }

  /** Reads a name of the form `soundFile.<int>.GPIO<int>` back into its parts. */
  function ParseSoundFile(name: string): Option<(int, int)>
  {
    if !StartsWith(name, "soundFile.") then None
    else ParseButtonPin(name[10..])
  }

  /** Reads `<int>.GPIO<int>`, split at its first `.`. */
  function ParseButtonPin(rest: string): Option<(int, int)>
  {
    match IndexOf(rest, ".")
    case None => None
    case Some(i) =>
      var button := ParseInt(rest[..i]);
      var tail := rest[i + 1..];
      if button.None? || !StartsWith(tail, "GPIO") then None
      else
        match ParseInt(tail[4..])
        case None => None
        case Some(pin) => Some((button.value, pin))
  }

  /** The first `.` of `str(b) + ".GPIO" + str(p)` is the one after `str(b)`. */
  lemma FirstDotAfterButton(b: int, p: int)
    ensures IndexOf(IntToString(b) + ".GPIO" + IntToString(p), ".") == Some(|IntToString(b)|)
  {
    var bs := IntToString(b);
    var rest := bs + ".GPIO" + IntToString(p);
    OccursAtChar(rest, '.', |bs|);
    var r := IndexOf(rest, ".");
    assert r.Some?;
    OccursAtChar(rest, '.', r.value);
  }

  /** Every sound-file name reads back as the button and pin it was built from,
      so `soundFile` never gives two (button, pin) pairs the same file. */
  lemma SoundFileRoundTrip(button: int, pin: int)
    ensures ParseSoundFile(SoundFile(button, pin)) == Some((button, pin))
  {
    var rest := IntToString(button) + ".GPIO" + IntToString(pin);
    assert SoundFile(button, pin) == "soundFile." + rest;
    SoundFilePrefix(rest);
    ButtonPinRoundTrip(button, pin);
  }

  lemma ButtonPinRoundTrip(button: int, pin: int)
    ensures ParseButtonPin(IntToString(button) + ".GPIO" + IntToString(pin)) == Some((button, pin))
  {
    var bs, ps := IntToString(button), IntToString(pin);
    FirstDotAfterButton(button, pin);
    SplitAtButtonDot(bs, ps);
    ParseIntToString(button);
    ParseIntToString(pin);
  }

  lemma SoundFilePrefix(rest: string)
    ensures StartsWith("soundFile." + rest, "soundFile.") && ("soundFile." + rest)[10..] == rest
  {
  }

  lemma SplitAtButtonDot(bs: string, ps: string)
    ensures (bs + ".GPIO" + ps)[..|bs|] == bs
    ensures (bs + ".GPIO" + ps)[|bs| + 1..] == "GPIO" + ps
    ensures StartsWith("GPIO" + ps, "GPIO") && ("GPIO" + ps)[4..] == ps
  {
  }

  lemma SoundFileInjective(b1: int, p1: int, b2: int, p2: int)
    requires SoundFile(b1, p1) == SoundFile(b2, p2)
    ensures b1 == b2 && p1 == p2
  {
    SoundFileRoundTrip(b1, p1);
    SoundFileRoundTrip(b2, p2);
  }

  // ---- upload extension filter

  /** `allowed_file(filename, 'SOUNDFILE')`: the name has a `.` and the text after
      the last `.`, lower-cased, is one of the allowed extensions. */
  function AllowedFile(filename: string, exts: set<string>): (ok: bool)
    ensures ok <==> exists i :: 0 <= i < |filename| && filename[i] == '.'
                       && (forall j :: i < j < |filename| ==> filename[j] != '.')
                       && Lower(filename[i + 1..]) in exts
  {
    match LastIndexOfChar(filename, '.')
    case None => false
    case Some(i) => Lower(filename[i + 1..]) in exts
  }

  /** Only the final extension counts: whatever precedes the last `.`. */
  lemma FinalExtensionDecides(stem: string, ext: string, exts: set<string>)
    requires forall j :: 0 <= j < |ext| ==> ext[j] != '.'
    ensures AllowedFile(stem + "." + ext, exts) <==> Lower(ext) in exts
  {
    var name := stem + "." + ext;
    assert name[|stem|] == '.';
    assert name[|stem| + 1..] == ext;
    if AllowedFile(name, exts) {
      var i :| 0 <= i < |name| && name[i] == '.'
               && (forall j :: i < j < |name| ==> name[j] != '.')
               && Lower(name[i + 1..]) in exts;
      assert i == |stem|;
    }
  }

  /** The default sound extensions of the configuration. */
  const SoundExtensions: set<string> := {"wav", "raw", "pcm"}

  lemma FinalExtensionExamples()
    ensures AllowedFile("x.tar.WAV", SoundExtensions)
    ensures !AllowedFile("x.wav.exe", SoundExtensions)
    ensures !AllowedFile("wav", SoundExtensions)
  {
    UpperCaseExtension();
    InnerExtension();
  }

  lemma UpperCaseExtension()
    ensures AllowedFile("x.tar.WAV", SoundExtensions)
  {
    FinalExtensionDecides("x.tar", "WAV", SoundExtensions);
    assert "x.tar" + "." + "WAV" == "x.tar.WAV";
    assert Lower("WAV") == "wav";
  }

  lemma InnerExtension()
    ensures !AllowedFile("x.wav.exe", SoundExtensions)
  {
    FinalExtensionDecides("x.wav", "exe", SoundExtensions);
    assert "x.wav" + "." + "exe" == "x.wav.exe";
    assert Lower("exe") == "exe";
  }

  // ---- internal referer test

  /** The referer prefixes accepted as internal: the loop-back address, the
      lower-cased host name and the host's IPv4 address. */
  function Referers(hostname: string, ipv4: string): (r: seq<string>)
    ensures |r| == 3 && r[0] == "http://127.0.0.1"
  {
    ["http://127.0.0.1", "http://" + Lower(hostname), "http://" + ipv4]
  }

  /** `any(r in header for r in referers)`. */
  function AnyContained(header: string, referers: seq<string>): (ok: bool)
    ensures ok <==> exists k :: 0 <= k < |referers| && Contains(header, referers[k])
  {
    if |referers| == 0 then false
    else Contains(header, referers[0]) || AnyContained(header, referers[1..])
  }

  /** `is_internal_referer()`: a request without a `Referer` header is never
      internal; one with a header is internal exactly when some accepted referer
      is a substring of it. */
  function IsInternalReferer(referer: Option<string>, referers: seq<string>): (ok: bool)
    ensures referer.None? ==> !ok
    ensures referer.Some? ==>
              (ok <==> exists k :: 0 <= k < |referers| && Contains(referer.value, referers[k]))
  {
    match referer
    case None => false
    case Some(header) => AnyContained(header, referers)
  }

  /** A header that begins with any of the three prefixes (followed by a
      path, a port, anything) is internal. */
  lemma ReferersAccepted(hostname: string, ipv4: string, rest: string)
    ensures IsInternalReferer(Some("http://127.0.0.1" + rest), Referers(hostname, ipv4))
    ensures IsInternalReferer(Some("http://" + Lower(hostname) + rest), Referers(hostname, ipv4))
    ensures IsInternalReferer(Some("http://" + ipv4 + rest), Referers(hostname, ipv4))
  {
    var r := Referers(hostname, ipv4);
    forall k | 0 <= k < 3 ensures Contains(r[k] + rest, r[k]) {
      assert OccursAt(r[k] + rest, r[k], 0) by { assert (r[k] + rest)[..|r[k]|] == r[k]; }
    }
    assert r[1] == "http://" + Lower(hostname) && r[2] == "http://" + ipv4;
  }

  // ---- view guard chains

  /** What a view hands back to Flask. */
  datatype Reply =
    | Refused(code: int)                            // an error text with this status code
    | WifiCall(ssid: string, passphrase: string)    // `wifi_ssid_passphrase` was called, 200
    | Uploaded(path: string)                        // the upload was saved here, 200
    | Served(folder: string, name: string)          // `send_from_directory(folder, name)`
    | Crash(exc: Exc)                               // an uncaught exception: status 500
    | NoReply                                       // the view fell off its end: status 500

  /** A request parameter: missing, present but rejected by `int()`, or an integer. */
  datatype Field = Absent | NotInt | Number(n: int)

  /** Python truthiness of an optional string parameter. */
  predicate Truthy(v: Option<string>) {
    v.Some? && v.value != ""
  }

  /** `append_wpa_supplicant`: internal referer, then platform, then secret,
      then non-empty ssid and passphrase; only a request passing all four
      reaches the Wi-Fi call. */
  function AppendWpaSupplicant(internal: bool, isPi: bool, secret: Option<string>, secretSha: string,
                               ssid: Option<string>, passphrase: Option<string>): (r: Reply)
    ensures !internal ==> r == Refused(403)
    ensures internal && !isPi ==> r == Refused(418)
    ensures internal && isPi && secret != Some(secretSha) ==> r == Refused(403)
    ensures (internal && isPi && secret == Some(secretSha) && !(Truthy(ssid) && Truthy(passphrase)))
              ==> r == Refused(400)
    ensures r.WifiCall? <==> internal && isPi && secret == Some(secretSha) && Truthy(ssid) && Truthy(passphrase)
    ensures r.WifiCall? ==> r.ssid == ssid.value && r.passphrase == passphrase.value
                            && r.ssid != "" && r.passphrase != ""
  {
    if !internal then Refused(403)
    else if !isPi then Refused(418)
    else if secret != Some(secretSha) then Refused(403)
    else if !(Truthy(ssid) && Truthy(passphrase)) then Refused(400)
    else WifiCall(ssid.value, passphrase.value)
  }

  /** Python list indexing `xs[i]`: negative indices count from the end, and an
      index outside `-len .. len-1` raises `IndexError` (`None` here). */
  function PyIndex(xs: seq<int>, i: int): (r: Option<int>)
    ensures r.Some? <==> -|xs| <= i < |xs|
    ensures 0 <= i < |xs| ==> r == Some(xs[i])
    ensures -|xs| <= i < 0 ==> r == Some(xs[|xs| + i])
  {
    if 0 <= i < |xs| then Some(xs[i])
    else if -|xs| <= i < 0 then Some(xs[|xs| + i])
    else None
  }

  /** A negative index names the element that many places from the end,
      and the first indices outside the list on either side fail. */
  lemma PyIndexFromEnd(xs: seq<int>, i: int)
    requires 0 <= i < |xs|
    ensures PyIndex(xs, i - |xs|) == PyIndex(xs, i) == Some(xs[i])
    ensures PyIndex(xs, |xs|).None? && PyIndex(xs, -|xs| - 1).None?
  {
  }

  /** `upload_soundfile`. `file` is the file part's file name, `None` when the
      request has no file part. */
  function UploadSoundfile(button: Field, pins: seq<int>, file: Option<string>,
                           exts: set<string>, folder: string): (r: Reply)
    ensures button.Absent? ==> r == Refused(423)
    ensures button.NotInt? ==> r == Crash(ValueError)
    ensures button.Number? && PyIndex(pins, button.n).None? ==> r == Crash(IndexError)
    ensures (button.Number? && PyIndex(pins, button.n).Some? && (file.None? || file.value == ""))
              ==> r == Refused(422)
    ensures r.Uploaded? <==> (button.Number? && PyIndex(pins, button.n).Some?
                              && file.Some? && file.value != "" && AllowedFile(file.value, exts))
    ensures r.Uploaded? ==> r.path == PathJoin(folder, SoundFile(button.n, PyIndex(pins, button.n).value))
    ensures r.NoReply? <==> (button.Number? && PyIndex(pins, button.n).Some?
                             && file.Some? && file.value != "" && !AllowedFile(file.value, exts))
  {
    match button
    case Absent => Refused(423)
    case NotInt => Crash(ValueError)
    case Number(b) =>
      match PyIndex(pins, b)
      case None => Crash(IndexError)
      case Some(pin) =>
        if file.None? || file.value == "" then Refused(422)
        else if AllowedFile(file.value, exts) then Uploaded(PathJoin(folder, SoundFile(b, pin)))
        else NoReply
  }

  /** `upload_soundfile` with the saved path passed through
      `os.path.expandvars` in the environment `env`, as the core does with the
      path it plays; every refusal is unchanged. */
  function UploadSoundfileExpanded(button: Field, pins: seq<int>, file: Option<string>,
                                   exts: set<string>, folder: string, env: map<string, string>): (r: Reply)
    ensures !UploadSoundfile(button, pins, file, exts, folder).Uploaded? ==>
              r == UploadSoundfile(button, pins, file, exts, folder)
    ensures r.Uploaded? <==> UploadSoundfile(button, pins, file, exts, folder).Uploaded?
    ensures r.Uploaded? ==>
              r.path == ExpandVars(env, PathJoin(folder, SoundFile(button.n, PyIndex(pins, button.n).value)))
  {
    match UploadSoundfile(button, pins, file, exts, folder)
    case Uploaded(path) => Uploaded(ExpandVars(env, path))
    case other => other
  }

  /** `download_soundfile`. `files` is the set of paths that are regular files. */
  function DownloadSoundfile(button: Field, pin: Field, folder: string, files: set<string>): (r: Reply)
    ensures button.Absent? ==> r == Refused(422)
    ensures button.NotInt? ==> r == Crash(ValueError)
    ensures button.Number? && pin.Absent? ==> r == Refused(422)
    ensures button.Number? && pin.NotInt? ==> r == Crash(ValueError)
    ensures r.Served? <==> (button.Number? && pin.Number?
                            && PathJoin(folder, SoundFile(button.n, pin.n)) in files)
    ensures r.Served? ==> r == Served(folder, SoundFile(button.n, pin.n))
    ensures button.Number? && pin.Number? && !r.Served? ==> r == Refused(403)
  {
    match button
    case Absent => Refused(422)
    case NotInt => Crash(ValueError)
    case Number(b) =>
      match pin
      case Absent => Refused(422)
      case NotInt => Crash(ValueError)
      case Number(p) =>
        if PathJoin(folder, SoundFile(b, p)) in files then Served(folder, SoundFile(b, p))
        else Refused(403)
  }

  /** An upload followed by a download of the same button and pin finds the
      file that was saved. */
  lemma UploadThenDownload(b: int, pins: seq<int>, name: string, exts: set<string>,
                           folder: string, files: set<string>)
    requires 0 <= b < |pins|
    requires name != "" && AllowedFile(name, exts)
    requires UploadSoundfile(Number(b), pins, Some(name), exts, folder).path in files
    ensures DownloadSoundfile(Number(b), Number(pins[b]), folder, files)
            == Served(folder, SoundFile(b, pins[b]))
  {
  }
}
