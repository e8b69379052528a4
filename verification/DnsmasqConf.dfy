/** `/etc/dnsmasq.conf` is one text file that five editors share: the upstream servers and local
    entries (internal/system/dns.go), the DHCP range (internal/system/dhcp.go) and the strict-order
    directive (internal/system/doh.go). This module models every editor as the scan-filter-append
    loop it is, and proves that together they behave like a record of independent fields. */
module DnsmasqConf {
  import opened Seqs
  import opened Text
  import opened Options

  datatype LocalEntry = LocalEntry(hostname: string, ip: string)

  datatype DHCPConfig = DHCPConfig(rangeStart: string, rangeEnd: string, leaseTime: string)

  /** Which system calls of one operation succeed. */
  datatype IO = IO(openOk: bool, writeOk: bool, reloadOk: bool)

  // ----- what one line says

  const SERVER := "server="
  const ADDRESS := "address=/"
  const RANGE := "dhcp-range="
  const STRICT := "strict-order"

  function ServerOf(line: string): seq<string> {
    var t := Trim(line);
    if SERVER <= t then [t[|SERVER|..]] else []
  }

  function EntryOf(line: string): (r: seq<LocalEntry>)
    ensures |r| <= 1
  {
    var t := Trim(line);
    if ADDRESS <= t then
      match CutFirst(t[|ADDRESS|..], '/')
      case Cut(hostname, ip) => [LocalEntry(hostname, ip)]
      case NoCut => []
    else []
  }

  function RangeOf(line: string): seq<seq<string>> {
    var t := Trim(line);
    if RANGE <= t then [Split(t[|RANGE|..], ',')] else []
  }

  function StrictOf(line: string): seq<()> {
    if Trim(line) == STRICT then [()] else []
  }

  // ----- what the file says

  function Servers(content: string): seq<string> {
    FlatMap(ServerOf, ScanLines(content))
  }

  function LocalEntries(content: string): seq<LocalEntry> {
    FlatMap(EntryOf, ScanLines(content))
  }

  /** Later range lines override earlier ones field by field. */
  function Override(cfg: DHCPConfig, parts: seq<string>): DHCPConfig {
    var cfg1 := if |parts| >= 2 then cfg.(rangeStart := parts[0], rangeEnd := parts[1]) else cfg;
    if |parts| >= 3 then cfg1.(leaseTime := parts[2]) else cfg1
  }

  function FoldRanges(ranges: seq<seq<string>>): DHCPConfig {
    if ranges == [] then DHCPConfig("", "", "")
    else Override(FoldRanges(ranges[..|ranges| - 1]), ranges[|ranges| - 1])
  }

  function DhcpConfig(content: string): DHCPConfig {
    FoldRanges(FlatMap(RangeOf, ScanLines(content)))
  }

  predicate StrictOrder(content: string) {
    FlatMap(StrictOf, ScanLines(content)) != []
  }

  // ----- which lines an editor claims

  datatype Claim = ServerLines | EntryLines(hostname: string) | RangeLines | StrictLines

  predicate Claims(c: Claim, line: string) {
    match c
    case ServerLines => SERVER <= Trim(line)
    case EntryLines(hostname) => ADDRESS + hostname + "/" <= Trim(line)
    case RangeLines => RANGE <= Trim(line)
    case StrictLines => Trim(line) == STRICT
  }

  function Unclaimed(c: Claim): string -> bool {
    line => !Claims(c, line)
  }

  function ServerLine(addr: string): string {
    SERVER + addr
  }

  function EntryLine(e: LocalEntry): string {
    ADDRESS + e.hostname + "/" + e.ip
  }

  function LeaseOrDefault(cfg: DHCPConfig): string {
    if cfg.leaseTime == "" then "24h" else cfg.leaseTime
  }

  function RangeLine(cfg: DHCPConfig): string {
    RANGE + cfg.rangeStart + "," + cfg.rangeEnd + "," + LeaseOrDefault(cfg)
  }

  // ----- the file after an edit

  function Rewritten(content: string, c: Claim, added: seq<string>): string {
    Render(Filter(Unclaimed(c), ScanLines(content)) + added)
  }

  function WithServers(content: string, servers: seq<string>): string {
    Rewritten(content, ServerLines, Map(ServerLine, servers))
  }

  function WithEntry(content: string, e: LocalEntry): string {
    content + EntryLine(e) + "\n"
  }

  function WithoutEntry(content: string, hostname: string): string {
    Rewritten(content, EntryLines(hostname), [])
  }

  function WithRange(content: string, cfg: DHCPConfig): string {
    Rewritten(content, RangeLines, [RangeLine(cfg)])
  }

  function EnsureNewline(out: string): string {
    if out != "" && out[|out| - 1] == '\n' then out else out + "\n"
  }

  function WithStrict(content: string, enable: bool): string {
    var kept := Filter(Unclaimed(StrictLines), ScanLines(content));
    EnsureNewline(Join(if enable then [STRICT] + kept else kept))
  }

  /** The file and the operations on it, as the program performs them. */
  class Dnsmasq {
    var conf: string

    constructor (content: string)
      ensures conf == content
    {
      conf := content;
    }

    method GetUpstreamServers(io: IO) returns (r: Option<seq<string>>)
      ensures r == if io.openOk then Some(Servers(conf)) else None
    {
      hide ScanLines, Trim;
      if !io.openOk {
        return None;
      }
      var lines := ScanLines(conf);
      var servers := [];
      for i := 0 to |lines|
        invariant servers == FlatMap(ServerOf, lines[..i])
      {
        assert lines[..i + 1][..i] == lines[..i];
        var line := Trim(lines[i]);
        if SERVER <= line {
          servers := servers + [line[|SERVER|..]];
        }
      }
      assert lines[..|lines|] == lines;
      return Some(servers);
    }

    method GetLocalEntries(io: IO) returns (r: Option<seq<LocalEntry>>)
      ensures r == if io.openOk then Some(LocalEntries(conf)) else None
    {
      hide ScanLines, Trim, CutFirst;
      if !io.openOk {
        return None;
      }
      var lines := ScanLines(conf);
      var entries := [];
      for i := 0 to |lines|
        invariant entries == FlatMap(EntryOf, lines[..i])
      {
        assert lines[..i + 1][..i] == lines[..i];
        var line := Trim(lines[i]);
        if ADDRESS <= line {
          var parts := CutFirst(line[|ADDRESS|..], '/');
          if parts.Cut? {
            entries := entries + [LocalEntry(parts.before, parts.after)];
          }
        }
      }
      assert lines[..|lines|] == lines;
      return Some(entries);
    }

    method GetDHCPConfig(io: IO) returns (r: Option<DHCPConfig>)
      ensures r == if io.openOk then Some(DhcpConfig(conf)) else None
    {
      hide ScanLines, Trim, Split;
      if !io.openOk {
        return None;
      }
      var lines := ScanLines(conf);
      var cfg := DHCPConfig("", "", "");
      for i := 0 to |lines|
        invariant cfg == FoldRanges(FlatMap(RangeOf, lines[..i]))
      {
        assert lines[..i + 1][..i] == lines[..i];
        ghost var seen := FlatMap(RangeOf, lines[..i]);
        assert FlatMap(RangeOf, lines[..i + 1]) == seen + RangeOf(lines[i]);
        var line := Trim(lines[i]);
        if RANGE <= line {
          var parts := Split(line[|RANGE|..], ',');
          if |parts| >= 2 {
            cfg := cfg.(rangeStart := parts[0], rangeEnd := parts[1]);
          }
          if |parts| >= 3 {
            cfg := cfg.(leaseTime := parts[2]);
          }
          assert (seen + [parts])[..|seen|] == seen;
        } else {
          assert seen + [] == seen;
        }
      }
      assert lines[..|lines|] == lines;
      return Some(cfg);
    }

    /** The error of a failed reload is returned after the file has been written. */
    method SetUpstreamServers(servers: seq<string>, io: IO) returns (ok: bool)
      modifies this
      ensures ok == (io.openOk && io.writeOk && io.reloadOk)
      ensures conf == if io.openOk && io.writeOk then WithServers(old(conf), servers) else old(conf)
    {
      hide ScanLines, Join, Trim;
      if !io.openOk {
        return false;
      }
      var scanned := ScanLines(conf);
      var lines := [];
      for i := 0 to |scanned|
        invariant lines == Filter(Unclaimed(ServerLines), scanned[..i])
      {
        assert scanned[..i + 1][..i] == scanned[..i];
        if !(SERVER <= Trim(scanned[i])) {
          lines := lines + [scanned[i]];
        }
      }
      assert scanned[..|scanned|] == scanned;
      ghost var kept := lines;
      for i := 0 to |servers|
        invariant lines == kept + Map(ServerLine, servers[..i])
      {
        lines := lines + [SERVER + servers[i]];
      }
      assert servers[..|servers|] == servers;
      if !io.writeOk {
        return false;
      }
      conf := Join(lines) + "\n";
      return io.reloadOk;
    }

    method AddLocalEntry(e: LocalEntry, io: IO) returns (ok: bool)
      modifies this
      ensures ok == (io.openOk && io.writeOk)
      ensures conf == if ok then WithEntry(old(conf), e) else old(conf)
    {
      if !io.openOk || !io.writeOk {
        return false;
      }
      conf := conf + (ADDRESS + e.hostname + "/" + e.ip) + "\n";
      return true;
    }

    method DeleteLocalEntry(hostname: string, io: IO) returns (ok: bool)
      modifies this
      ensures ok == (io.openOk && io.writeOk)
      ensures conf == if ok then WithoutEntry(old(conf), hostname) else old(conf)
    {
      hide ScanLines, Join, Trim;
      if !io.openOk {
        return false;
      }
      var scanned := ScanLines(conf);
      var lines := [];
      for i := 0 to |scanned|
        invariant lines == Filter(Unclaimed(EntryLines(hostname)), scanned[..i])
      {
        assert scanned[..i + 1][..i] == scanned[..i];
        var prefix := ADDRESS + hostname + "/";
        if !(prefix <= Trim(scanned[i])) {
          lines := lines + [scanned[i]];
        }
      }
      assert scanned[..|scanned|] == scanned;
      assert lines + [] == lines;
      if !io.writeOk {
        return false;
      }
      conf := Join(lines) + "\n";
      return true;
    }

    method SaveDHCPConfig(cfg: DHCPConfig, io: IO) returns (ok: bool)
      modifies this
      ensures ok == (io.openOk && io.writeOk)
      ensures conf == if ok then WithRange(old(conf), cfg) else old(conf)
    {
      hide ScanLines, Join, Trim;
      if !io.openOk {
        return false;
      }
      var scanned := ScanLines(conf);
      var lines := [];
      for i := 0 to |scanned|
        invariant lines == Filter(Unclaimed(RangeLines), scanned[..i])
      {
        assert scanned[..i + 1][..i] == scanned[..i];
        if !(RANGE <= Trim(scanned[i])) {
          lines := lines + [scanned[i]];
        }
      }
      assert scanned[..|scanned|] == scanned;
      var leaseTime := cfg.leaseTime;
      if leaseTime == "" {
        leaseTime := "24h";
      }
      lines := lines + [RANGE + cfg.rangeStart + "," + cfg.rangeEnd + "," + leaseTime];
      if !io.writeOk {
        return false;
      }
      conf := Join(lines) + "\n";
      return true;
    }

    method SetStrictOrder(enable: bool, io: IO) returns (ok: bool)
      modifies this
      ensures ok == (io.openOk && io.writeOk)
      ensures conf == if ok then WithStrict(old(conf), enable) else old(conf)
    {
      hide ScanLines, Join, Trim;
      if !io.openOk {
        return false;
      }
      var scanned := ScanLines(conf);
      var lines := [];
      for i := 0 to |scanned|
        invariant lines == Filter(Unclaimed(StrictLines), scanned[..i])
      {
        assert scanned[..i + 1][..i] == scanned[..i];
        if Trim(scanned[i]) == STRICT {
          continue;
        }
        lines := lines + [scanned[i]];
      }
      assert scanned[..|scanned|] == scanned;
      if enable {
        lines := [STRICT] + lines;
      }
      var out := Join(lines);
      if !(out != "" && out[|out| - 1] == '\n') {
        out := out + "\n";
      }
      if !io.writeOk {
        return false;
      }
      conf := out;
      return true;
    }
  }
}
