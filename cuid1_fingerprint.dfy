/** crates/cuid1/src/cuid1/fingerprint.rs: the fingerprint of the
    version-1 generator. Every step returns an outcome; a host name that
    cannot be read is an I/O error. The host name (`None` when it cannot be
    read) and the process id are inputs. */
module CuidOneFingerprint {
  import Codec
  import CuidOneText
  import Hostname
  import opened Errors

  /** 2^32: process ids are `u32`. */
  const U32_LIMIT: nat := 0x1_0000_0000

  /** The fold runs in `usize` and is cast to `u64`; names whose value fits
      in 64 bits are modelled. */
  const U64_LIMIT: nat := 0x1_0000_0000_0000_0000

  /** `pid`: the process id as a two-character block. An encoding failure
      would be reported as a fingerprint error, but a `u32` always
      encodes. */
  method Pid(pid: nat) returns (r: Outcome<string>)
    requires pid < U32_LIMIT
    ensures r == Ok(Hostname.PidBlock(pid))
  {
    var text := CuidOneText.ToBaseString(pid);
    match text {
      case Ok(s) => r := Ok(CuidOneText.Pad(Hostname.FINGERPRINT_PADDING, s));
      case Err(_) => r := Err(FingerprintError("Could not encode pid"));
      case Panic(m) => r := Panic(m);
    }
  }

  /** `convert_hostname`: the host value as a two-character block. */
  method ConvertHostname(hn: string) returns (r: Outcome<string>)
    requires Hostname.HostValue(hn) < U64_LIMIT
    ensures r == Ok(Hostname.HostBlock(hn))
  {
    var text := CuidOneText.ToBaseString(Hostname.HostValue(hn));
    match text {
      case Ok(s) => r := Ok(CuidOneText.Pad(Hostname.FINGERPRINT_PADDING, s));
      case Err(e) => r := Err(e);
      case Panic(m) => r := Panic(m);
    }
  }

  /** `host_id`: an unreadable host name is passed on as an I/O error. */
  method HostId(hostname: Option<string>) returns (r: Outcome<string>)
    requires hostname.Some? ==> Hostname.HostValue(hostname.value) < U64_LIMIT
    ensures hostname.None? ==> r == Err(IOError)
    ensures hostname.Some? ==> r == Ok(Hostname.HostBlock(hostname.value))
  {
    if hostname.None? {
      return Err(IOError);
    }
    r := ConvertHostname(hostname.value);
  }

  /** `fingerprint`: the host block followed by the process block, or the
      error of the host lookup. */
  method Fingerprint(hostname: Option<string>, pid: nat) returns (r: Outcome<string>)
    requires hostname.Some? ==> Hostname.HostValue(hostname.value) < U64_LIMIT
    requires pid < U32_LIMIT
    ensures hostname.None? ==> r == Err(IOError)
    ensures hostname.Some? ==> r == Ok(Hostname.HostBlock(hostname.value) + Hostname.PidBlock(pid))
    ensures r.Ok? ==> |r.value| == 2 * Hostname.FINGERPRINT_PADDING && Codec.IsDigitString(36, r.value)
  {
    var hid := HostId(hostname);
    if !hid.Ok? {
      return hid;
    }
    var procid := Pid(pid);
    Hostname.BlockKeepsLowDigits(hostname.value, pid);
    r := Ok(hid.value + procid.value);
  }
}
