/** src/fingerprint.rs: the fingerprint of the older top-level crate. The
    host name getter becomes its result (`None` when no name is available);
    the process id is an input. Unlike the crates/cuid1 copies this one puts
    the process block first. */
module LegacyFingerprint {
  import Codec
  import LegacyText
  import Hostname
  import opened Errors

  /** 2^32: process ids are `u32`. */
  const U32_LIMIT: nat := 0x1_0000_0000

  /** The fold runs in `usize` and is cast to `u64`; names whose value fits
      in 64 bits are modelled. */
  const U64_LIMIT: nat := 0x1_0000_0000_0000_0000

  /** `pid`: the process id as a two-character block. */
  method Pid(pid: nat) returns (s: string)
    requires pid < U32_LIMIT
    ensures s == Hostname.PidBlock(pid)
  {
    var text := LegacyText.ToBaseString(pid);
    s := LegacyText.Pad(Hostname.FINGERPRINT_PADDING, text.value);
  }

  /** `convert_hostname`: the host value as a two-character block, or a
      fingerprint error when the getter yields no name. */
  method ConvertHostname(hostname: Option<string>) returns (r: Outcome<string>)
    requires hostname.Some? ==> Hostname.HostValue(hostname.value) < U64_LIMIT
    ensures hostname.None? ==> r == Err(FingerprintError(""))
    ensures hostname.Some? ==> r == Ok(Hostname.HostBlock(hostname.value))
  {
    if hostname.None? {
      return Err(FingerprintError(""));
    }
    var text := LegacyText.ToBaseString(Hostname.HostValue(hostname.value));
    var padded := LegacyText.Pad(Hostname.FINGERPRINT_PADDING, text.value);
    r := Ok(padded);
  }

  /** `host_id`. */
  method HostId(hostname: Option<string>) returns (r: Outcome<string>)
    requires hostname.Some? ==> Hostname.HostValue(hostname.value) < U64_LIMIT
    ensures hostname.None? ==> r == Err(FingerprintError(""))
    ensures hostname.Some? ==> r == Ok(Hostname.HostBlock(hostname.value))
  {
    r := ConvertHostname(hostname);
  }

  /** `fingerprint`: the process block followed by the host block. */
  method Fingerprint(hostname: Option<string>, pid: nat) returns (r: Outcome<string>)
    requires hostname.Some? ==> Hostname.HostValue(hostname.value) < U64_LIMIT
    requires pid < U32_LIMIT
    ensures hostname.None? ==> r == Err(FingerprintError(""))
    ensures hostname.Some? ==> r == Ok(Hostname.PidBlock(pid) + Hostname.HostBlock(hostname.value))
    ensures r.Ok? ==> |r.value| == 2 * Hostname.FINGERPRINT_PADDING && Codec.IsDigitString(36, r.value)
  {
    var hid := HostId(hostname);
    if !hid.Ok? {
      return hid;
    }
    var procid := Pid(pid);
    Hostname.BlockKeepsLowDigits(hostname.value, pid);
    r := Ok(procid + hid.value);
  }

  /** The two block orders give the same fingerprint exactly when the host
      block and the process block coincide. */
  lemma OrderMatters(h: string, pid: nat)
    ensures Hostname.PidBlock(pid) + Hostname.HostBlock(h) == Hostname.HostBlock(h) + Hostname.PidBlock(pid)
        <==> Hostname.HostBlock(h) == Hostname.PidBlock(pid)
  {
    var p, b := Hostname.PidBlock(pid), Hostname.HostBlock(h);
    if p + b == b + p {
      assert p == (p + b)[..2] == (b + p)[..2] == b;
    }
  }
}
