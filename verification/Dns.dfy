/**
 The two DNS server entries.  The module behind the library keeps two addresses; it is given text
 and read back as bytes.  That it reads the text as Address.Parse does, and that either call may
 fail, is all that is assumed of it.
 */
module Dns {
  import opened Wrappers
  import opened Address

  datatype Config = Config(first: Ip, second: Ip)

  function Entry(cfg: Config, i: nat): Ip
    requires i < 2
  {
    if i == 0 then cfg.first else cfg.second
  }

  const ZERO: Ip := Ip(0, 0, 0, 0)

  /** dns_getserver: zero for an index above 1 or when the module does not answer. */
  function GetServer(cfg: Config, i: nat, readOk: bool): Ip {
    if i > 1 || !readOk then ZERO else Entry(cfg, i)
  }

  /** What dns_setserver leaves in the module. */
  function SetServer(cfg: Config, i: nat, a: Ip, readOk: bool, writeOk: bool): Config {
    if i > 1 || !writeOk then cfg
    else if i == 0 then Config(a, GetServer(cfg, 1, readOk))
    else Config(GetServer(cfg, 0, readOk), a)
  }

  class Client {
    /** The module's memory, reached only through the two library calls. */
    var cfg: Config

    constructor (cfg: Config)
      ensures this.cfg == cfg
    {
      this.cfg := cfg;
    }

    method EspDnsGetConfig(ok: bool) returns (r: Option<Config>)
      ensures r == if ok then Some(cfg) else None
    {
      r := if ok then Some(cfg) else None;
    }

    /** The module takes what it reads in the text, if it can read both. */
    method EspDnsSetConfig(s1: string, s2: string, ok: bool)
      modifies this
      ensures cfg == if ok && Parse(s1).Some? && Parse(s2).Some? then Config(Parse(s1).value, Parse(s2).value) else old(cfg)
    {
      if ok {
        var a, b := Parse(s1), Parse(s2);
        if a.Some? && b.Some? {
          cfg := Config(a.value, b.value);
        }
      }
    }

    method DnsGetServer(i: nat, readOk: bool) returns (ip: Ip)
      ensures ip == GetServer(cfg, i, readOk)
    {
      ip := ZERO;
      if i > 1 {
        return;
      }
      var r := EspDnsGetConfig(readOk);
      if r.None? {
        return;
      }
      ip := Entry(r.value, i);
    }

    /** An address printed into a local buffer of 18 characters, as a string. */
    static method Print(ip: Ip) returns (s: string)
      ensures Parse(s) == Some(ip)
    {
      var buf := new char[18](_ => '\0');
      var n := EspIp2Str(buf, ip);
      ParseInvertsText(ip);
      s := buf[..n];
    }

    method DnsSetServer(i: nat, server: Ip, readOk: bool, writeOk: bool)
      modifies this
      ensures cfg == SetServer(old(cfg), i, server, readOk, writeOk)
    {
      var other := if i == 0 then 1 else 0;
      if i > 1 {
        return;
      }
      var dns := new Ip[2](_ => ZERO);
      dns[other] := DnsGetServer(other, readOk);
      dns[i] := server;
      var dns1 := Print(dns[0]);
      var dns2 := Print(dns[1]);
      EspDnsSetConfig(dns1, dns2, writeOk);
    }
  }

  /** With both calls answered: set then get, the other entry, last set wins, sets commute. */
  lemma TwoSlotLaws(cfg: Config, i: nat, j: nat, a: Ip, b: Ip)
    requires i < 2
    ensures var set1 := SetServer(cfg, i, a, true, true);
            && GetServer(set1, i, true) == a
            && GetServer(set1, 1 - i, true) == GetServer(cfg, 1 - i, true)
            && SetServer(set1, i, b, true, true) == SetServer(cfg, i, b, true, true)
            && (j != i ==> SetServer(set1, j, b, true, true)
                           == SetServer(SetServer(cfg, j, b, true, true), i, a, true, true))
            && (j > 1 ==> SetServer(cfg, j, b, true, true) == cfg && GetServer(cfg, j, true) == ZERO)
  {
  }

  /** What both entries are after a set, and what a get returns, whichever calls fail. */
  lemma SetServerExactly(cfg: Config, i: nat, a: Ip, readOk: bool, writeOk: bool)
    ensures var cfg' := SetServer(cfg, i, a, readOk, writeOk);
            && (i > 1 || !writeOk ==> cfg' == cfg)
            && (i == 0 && writeOk ==> cfg'.first == a && cfg'.second == if readOk then cfg.second else Ip(0, 0, 0, 0))
            && (i == 1 && writeOk ==> cfg'.second == a && cfg'.first == if readOk then cfg.first else Ip(0, 0, 0, 0))
    ensures GetServer(cfg, i, readOk) == if !readOk || i > 1 then Ip(0, 0, 0, 0)
                                         else if i == 0 then cfg.first else cfg.second
  {
  }

  /**
   With failures, set does not always leave the other entry alone: when the read-back fails it
   writes zero there.  It leaves it alone exactly when the write fails, the read succeeds, or the
   other entry is zero anyway.
   */
  lemma OtherEntryKept(cfg: Config, i: nat, a: Ip, readOk: bool, writeOk: bool)
    requires i < 2
    ensures Entry(SetServer(cfg, i, a, readOk, writeOk), 1 - i) == Entry(cfg, 1 - i)
            <==> !writeOk || readOk || Entry(cfg, 1 - i) == ZERO
  {
  }

  /** The second entry 8.8.8.8 is lost by setting the first while the module does not answer. */
  lemma OtherEntryLost()
    ensures var cfg := Config(Ip(1, 1, 1, 1), Ip(8, 8, 8, 8));
            SetServer(cfg, 0, Ip(9, 9, 9, 9), false, true) == Config(Ip(9, 9, 9, 9), ZERO)
  {
  }
}
