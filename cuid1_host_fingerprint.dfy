/** crates/cuid1/src/fingerprint.rs: the host fingerprint that falls back
    to a UUID when the host name cannot be read. The process id and the
    UUID are inputs. */
module CuidOneHostFingerprint {
  import Codec
  import CuidOneText
  import Hostname
  import opened Errors

  /** 2^32: process ids are `u32`. */
  const U32_LIMIT: nat := 0x1_0000_0000

  /** The fold runs in `usize` and is cast to `u64`; names whose value fits
      in 64 bits are modelled. */
  const U64_LIMIT: nat := 0x1_0000_0000_0000_0000

  /** `pid`: the process id as a two-character block. */
  method Pid(pid: nat) returns (s: string)
    requires pid < U32_LIMIT
    ensures s == Hostname.PidBlock(pid)
  {
    var text := CuidOneText.ToBaseString(pid);
    s := CuidOneText.Pad(Hostname.FINGERPRINT_PADDING, text.value);
  }

  /** `convert_hostname`: the host value as a two-character block. */
  method ConvertHostname(hn: string) returns (s: string)
    requires Hostname.HostValue(hn) < U64_LIMIT
    ensures s == Hostname.HostBlock(hn)
  {
    var text := CuidOneText.ToBaseString(Hostname.HostValue(hn));
    s := CuidOneText.Pad(Hostname.FINGERPRINT_PADDING, text.value);
  }

  /** `host_id`: the host name if it can be read (`None` when
      `hostname::get` fails), otherwise a fresh UUID string. */
  method HostId(hostname: Option<string>, uuid: string) returns (s: string)
    requires hostname.Some? ==> Hostname.HostValue(hostname.value) < U64_LIMIT
    requires Hostname.HostValue(uuid) < U64_LIMIT
    ensures s == Hostname.HostBlock(HostName(hostname, uuid))
  {
    var hn := if hostname.Some? then hostname.value else uuid;
    s := ConvertHostname(hn);
  }

  /** The name the block is computed from: the host's name when it can be
      read, otherwise the UUID string. */
  function HostName(hostname: Option<string>, uuid: string): string
  {
    if hostname.Some? then hostname.value else uuid
  }

  /** `fingerprint`: the host block followed by the process block, four
      characters of base 36. */
  method Fingerprint(hostname: Option<string>, uuid: string, pid: nat) returns (s: string)
    requires hostname.Some? ==> Hostname.HostValue(hostname.value) < U64_LIMIT
    requires Hostname.HostValue(uuid) < U64_LIMIT
    requires pid < U32_LIMIT
    ensures s == Hostname.HostBlock(HostName(hostname, uuid)) + Hostname.PidBlock(pid)
    ensures |s| == 2 * Hostname.FINGERPRINT_PADDING && Codec.IsDigitString(36, s)
  {
    var hid := HostId(hostname, uuid);
    var procid := Pid(pid);
    Hostname.BlockKeepsLowDigits(HostName(hostname, uuid), pid);
    s := hid + procid;
  }
}
