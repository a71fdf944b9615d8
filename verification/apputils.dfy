/** The older helper module of the web application (`app/utils.py`): the
    subprocess wrapper `_popen`, which never raises and falls back to the
    default dictionary, its `systemd_status`, and the list of watched units. */
module AppUtils {
  import opened Base
  import opened Text
  import opened SysUtils

  /** `_popen(cmd)`: a spawn `OSError` and any failure other than `OSError`
      after the spawn (a stream that is not valid UTF-8 included) give the
      default dictionary; an `OSError` from `communicate` gives its `errno`
      and `strerror`. */
  function Popen(sp: Spawn): (r: Resp)
    ensures sp.SpawnOSError? ==> r == Defaults
    ensures sp.Spawned? && Decodable(sp.comm) ==>
              (var c := sp.comm;
               r == Resp(c.returncode == 0, Some(c.returncode),
                         Some(ReplaceNewlines(c.out.value)), Some(ReplaceNewlines(c.err.value))))
    ensures sp.Spawned? && sp.comm.CommOSError? ==> r == Resp(false, sp.comm.errno, None, sp.comm.strerror)
    ensures sp.Spawned? && !sp.comm.CommOSError? && !Decodable(sp.comm) ==> r == Defaults
    ensures r.success <==> Succeeded(sp) && Decodable(sp.comm)
  {
    match sp
    case SpawnOSError => RespDict(NoOverrides)
    case Spawned(c) =>
      match c
      case Finished(code, out, err) =>
        if out.None? || err.None? then RespDict(NoOverrides)
        else RespDict(Overrides(Some(code == 0), Some(Some(code)),
                                Some(Some(BreakLines(out.value))), Some(Some(BreakLines(err.value)))))
      case CommOSError(errno, strerror) => RespDict(Overrides(None, Some(errno), None, Some(strerror)))
      case CommFailed => RespDict(NoOverrides)
  }

  /** The two wrappers agree wherever `system_call` returns a dictionary;
      where it raises after the spawn, `_popen` returns the defaults. */
  lemma PopenAgreesWithSystemCall(sp: Spawn)
    ensures DictCall(sp).Ok? ==> Popen(sp) == DictCall(sp).value
    ensures DictCall(sp).Raise? ==> Popen(sp) == Defaults
  {
  }

  /** `systemd_status` of `app/utils.py`: as in `utils.py`, but over `_popen`,
      so only the extraction can raise. */
  function SystemdStatus(service: string, sp: Spawn): (r: Result<Report>)
    ensures r.Raise? <==> StatusOf(Popen(sp).stdout).Raise?
    ensures r.Raise? ==> r.exc == IndexError
    ensures r.Ok? ==> r.value.service == service && r.value.resp == Popen(sp)
    ensures r.Ok? ==> r.value.status == StatusOf(Popen(sp).stdout).value
    ensures r.Ok? && r.value.status.Some? ==> sp.Spawned? && Decodable(sp.comm)
  {
    var resp := Popen(sp);
    match StatusOf(resp.stdout)
    case Raise(e) => Raise(e)
    case Ok(status) => Ok(Report(service, status, resp))
  }

  /** Both modules report the same thing about a unit whenever `system_call`
      returns. */
  lemma SystemdStatusAgrees(service: string, sp: Spawn)
    requires DictCall(sp).Ok?
    ensures SystemdStatus(service, sp) == SysUtils.SystemdStatus(service, sp)
  {
    PopenAgreesWithSystemCall(sp);
  }

  // ---- the list of watched units

  /** The list literal as written: the third and fourth strings have no
      comma between them, and Python joins adjacent literals into one. */
  const CoreServicesAsWritten: seq<string> :=
    ["pi3ctrl-core.service", "pi3ctrl-http.service",
     "pi3ctrl-wifi.service" + "nginx.service",
     "dnsmasq.service", "hostapd.service"]

  /** The list with the missing comma restored. */
  const CoreServices: seq<string> :=
    ["pi3ctrl-core.service", "pi3ctrl-http.service", "pi3ctrl-wifi.service",
     "nginx.service", "dnsmasq.service", "hostapd.service"]

  /** A systemd service unit name: a stem without `.`, then `.service`. */
  predicate UnitName(s: string) {
    |s| >= 8 && s[|s| - 8..] == ".service" && forall k :: 0 <= k < |s| - 8 ==> s[k] != '.'
  }

  lemma UnitNameOf(stem: string)
    requires forall k :: 0 <= k < |stem| ==> stem[k] != '.'
    ensures UnitName(stem + ".service")
  {
    var s := stem + ".service";
    assert s[|s| - 8..] == ".service";
    assert forall k :: 0 <= k < |stem| ==> s[k] == stem[k];
  }

  /** As written, the list has five entries, one of which is two unit names
      run together, so `nginx.service` is never queried. */
  lemma CoreServicesFused()
    ensures |CoreServicesAsWritten| == 5
    ensures CoreServicesAsWritten[2] == "pi3ctrl-wifi.servicenginx.service"
    ensures !UnitName(CoreServicesAsWritten[2])
    ensures "nginx.service" !in CoreServicesAsWritten && "pi3ctrl-wifi.service" !in CoreServicesAsWritten
  {
    var fused := CoreServicesAsWritten[2];
    assert fused[12] == '.';
    assert |fused| == 33;
    forall k | 0 <= k < 5
      ensures CoreServicesAsWritten[k] != "nginx.service"
      ensures CoreServicesAsWritten[k] != "pi3ctrl-wifi.service"
    {
      assert CoreServicesAsWritten[k][0] != 'n';
      if k != 2 {
        assert |CoreServicesAsWritten[k]| != 20 || CoreServicesAsWritten[k][8] != 'w';
      }
    }
  }

  /** Restored, the list holds six proper service unit names. */
  lemma CoreServicesRestored()
    ensures |CoreServices| == 6
    ensures forall k :: 0 <= k < |CoreServices| ==> UnitName(CoreServices[k])
  {
    forall k | 0 <= k < 6
      ensures UnitName(CoreServices[k])
    {
      NamedUnit(k);
    }
  }

  /** The restored list is the as-written one with the fused entry split in two. */
  lemma CoreServicesSplitsFused()
    ensures CoreServices[..2] == CoreServicesAsWritten[..2]
    ensures CoreServices[2] + CoreServices[3] == CoreServicesAsWritten[2]
    ensures CoreServices[4..] == CoreServicesAsWritten[3..]
  {
  }

  const Stems: seq<string> := ["pi3ctrl-core", "pi3ctrl-http", "pi3ctrl-wifi", "nginx", "dnsmasq", "hostapd"]

  lemma NamedUnit(k: nat)
    requires k < 6
    ensures UnitName(CoreServices[k])
  {
    var stem := Stems[k];
    assert CoreServices[k] == stem + ".service";
    assert forall j :: 0 <= j < |stem| ==> stem[j] != '.';
    UnitNameOf(stem);
  }
}
