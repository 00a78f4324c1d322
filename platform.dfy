/** The collaborators the protocol core is written against, which this model
    does not cover: the Ethernet controller driver (eth0: address
    configuration, frame transmission, the Internet checksum, here the
    abstract function `Link.checksum`) and the timer service of timer.h. */
module Platform {
  import opened Bytes

  /** The callbacks the core hands to the timer service (timer.h:39-41). The
      model assumes that the service keys its timers by callback, so that
      starting a timer for a callback that already has one replaces it, and
      that every start succeeds. */
  datatype TimerTag =
    | SendDhcpDiscovery
    | SendDhcpRequest
    | SendArpProbe
    | ArpProbeFinished
    | RenewingT1
    | RebindingT2
    | LeaseExpired
    | MqttPing
    | RetryMqttMsgResend

  /** A duration the timer service takes: a uint32 count of seconds. */
  type Seconds = n: nat | n < 0x1_0000_0000

  /** An armed timer: its kind and its duration. */
  datatype Timer = OneShot(seconds: Seconds) | Periodic(seconds: Seconds)

  /** The bits of timer state a component may touch: a map from callback to the timer armed for it. */
  type Timers = map<TimerTag, Timer>

  /** The two bytes a checksum session over `span` leaves in a header field,
      for the checksum function `cks` of the interface. */
  function ChecksumField(cks: seq<bv8> -> bv16, span: seq<bv8>): (r: seq<bv8>)
    ensures |r| == 2
  {
    BE16(cks(span))
  }

  /** The Ethernet interface the core sends through. `sent` is the log of frames
      handed to etherPutPacket, each cut to the length the caller passed.
      `checksum` stands for the etherSumWords/getEtherChecksum pair, which is not
      part of this model: it maps the exact bytes a checksum session sums to the
      16-bit value the caller stores. */
  class Link {
    var macAddress: seq<bv8>
    var ipAddress: seq<bv8>
    var ipSubnetMask: seq<bv8>
    var ipGwAddress: seq<bv8>
    var ipDns: seq<bv8>
    var sent: seq<seq<bv8>>
    const checksum: seq<bv8> -> bv16

    ghost predicate Valid()
      reads this
    {
      |macAddress| == HwAddLength && |ipAddress| == IpAddLength && |ipSubnetMask| == IpAddLength
      && |ipGwAddress| == IpAddLength && |ipDns| == IpAddLength
    }

    constructor (mac: seq<bv8>, ip: seq<bv8>, checksum: seq<bv8> -> bv16)
      requires |mac| == HwAddLength && |ip| == IpAddLength
      ensures Valid() && this.checksum == checksum
      ensures macAddress == mac && ipAddress == ip && sent == []
    {
      macAddress := mac;
      ipAddress := ip;
      ipSubnetMask := Fill(IpAddLength, 0);
      ipGwAddress := Fill(IpAddLength, 0);
      ipDns := Fill(IpAddLength, 0);
      sent := [];
      this.checksum := checksum;
    }

    /** etherSetIpAddress, etherSetIpSubnetMask, etherSetIpGatewayAddress and
        etherSetDns, each given the four bytes of an address. */
    method SetIpAddress(ip: seq<bv8>)
      requires |ip| == IpAddLength
      modifies this`ipAddress
      ensures ipAddress == ip
    {
      ipAddress := ip;
    }

    method SetIpSubnetMask(mask: seq<bv8>)
      requires |mask| == IpAddLength
      modifies this`ipSubnetMask
      ensures ipSubnetMask == mask
    {
      ipSubnetMask := mask;
    }

    method SetIpGatewayAddress(gw: seq<bv8>)
      requires |gw| == IpAddLength
      modifies this`ipGwAddress
      ensures ipGwAddress == gw
    {
      ipGwAddress := gw;
    }

    method SetDns(dns: seq<bv8>)
      requires |dns| == IpAddLength
      modifies this`ipDns
      ensures ipDns == dns
    {
      ipDns := dns;
    }

    /** etherPutPacket(frame, |frame|). */
    method PutPacket(frame: seq<bv8>)
      modifies this`sent
      ensures sent == old(sent) + [frame]
    {
      sent := sent + [frame];
    }
  }
}
