/** The port-forward script `50-portforward.sh` (internal/system/firewall.go): a list of rules kept as
    blocks of one comment line and three iptables lines in a shell script that people also edit. */
module PortForward {
  import opened Seqs
  import opened Text
  import opened Options
  import opened Validate

  datatype Rule = Rule(name: string, protocol: string, extPort: string, intIP: string, intPort: string)

  /** What `validatePortForwardRule` accepts. */
  predicate Valid(r: Rule) {
    && ValidPFName(r.name)
    && (r.protocol == "tcp" || r.protocol == "udp")
    && ValidPort(r.extPort) && ValidPort(r.intPort)
    && AddressText(r.intIP)
  }

  const PF := "# PF: "
  const IPTABLES := "iptables"

  // ----- what one line says

  /** The rule a comment line describes. */
  function RuleOf(line: string): seq<Rule> {
    var t := Trim(line);
    if PF <= t then
      var parts := Split(t[|PF|..], '|');
      if |parts| < 5 then [] else [Rule(parts[0], parts[1], parts[2], parts[3], parts[4])]
    else []
  }

  function Marker(name: string): string {
    PF + name + "|"
  }

  predicate Marks(name: string, line: string) {
    Marker(name) <= Trim(line)
  }

  predicate IsIptables(line: string) {
    IPTABLES <= Trim(line)
  }

  // ----- the block of a rule

  function UpperChar(c: char): char {
    if 'a' <= c <= 'z' then (c as int - 32) as char else c
  }

  function ToUpper(s: string): string {
    Map(UpperChar, s)
  }

  function Comment(r: Rule): string {
    PF + JoinBy([r.name, r.protocol, r.extPort, r.intIP, r.intPort], '|')
  }

  function NatHead(): string {
    "iptables -t nat -A" + " PREROUTING -i ppp0 -p "
  }

  function ForwardHead(): string {
    "iptables -A FORWARD" + " -i ppp0 -o lan -p "
  }

  function DnatTo(): string {
    " -j DNAT --to-destination "
  }

  function LogTo(): string {
    " -m state --state NEW" + " -j LOG --log-prefix \""
  }

  function AcceptTail(): string {
    " -m state --state NEW" + " -j ACCEPT"
  }

  function NatLine(r: Rule): string {
    Concat([NatHead(), r.protocol, " --dport ", r.extPort, DnatTo(), r.intIP, ":", r.intPort])
  }

  function LogLine(r: Rule): string {
    Concat([ForwardHead(), r.protocol, " -d ", r.intIP, " --dport ", r.intPort, LogTo(), ToUpper(r.name), ": \""])
  }

  function AcceptLine(r: Rule): string {
    Concat([ForwardHead(), r.protocol, " -d ", r.intIP, " --dport ", r.intPort, AcceptTail()])
  }

  /** The lines of a block after the blank line that starts it. */
  function BlockLines(r: Rule): seq<string> {
    [Comment(r), NatLine(r), LogLine(r), AcceptLine(r)]
  }

  function Block(r: Rule): string {
    "\n" + Comment(r) + "\n" + NatLine(r) + "\n" + LogLine(r) + "\n" + AcceptLine(r) + "\n"
  }

  // ----- the deleter

  /** The lines that are kept, and how many iptables lines are still to be dropped. */
  function Scan(lines: seq<string>, name: string): (seq<string>, nat) {
    if lines == [] then ([], 0)
    else
      var (kept, skip) := Scan(lines[..|lines| - 1], name);
      ScanLine(kept, skip, lines[|lines| - 1], name)
  }

  function ScanLine(kept: seq<string>, skip: nat, line: string, name: string): (seq<string>, nat) {
    if Marks(name, line) then
      (if kept != [] && Blank(kept[|kept| - 1]) then kept[..|kept| - 1] else kept, 3)
    else if skip > 0 && IsIptables(line) then (kept, skip - 1)
    else (kept + [line], skip)
  }

  // ----- the file

  function Rules(content: string): seq<Rule> {
    FlatMap(RuleOf, ScanLines(content))
  }

  function Without(content: string, name: string): string {
    Render(Scan(ScanLines(content), name).0)
  }

  /** Which system calls of an operation succeed. */
  datatype IO = IO(openOk: bool, writeOk: bool)

  /** The script, or nothing if it does not exist. */
  class PortForwardFile {
    var file: Option<string>

    constructor ()
      ensures file == None
    {
      file := None;
    }

    method GetPortForwardRules(io: IO) returns (r: Option<seq<Rule>>)
      ensures r == if file.None? then Some([]) else if io.openOk then Some(Rules(file.value)) else None
    {
      if file.None? {
        return Some([]);
      }
      if !io.openOk {
        return None;
      }
      var lines := ScanLines(file.value);
      var rules := [];
      for i := 0 to |lines|
        invariant rules == FlatMap(RuleOf, lines[..i])
      {
        assert lines[..i + 1][..i] == lines[..i];
        var line := Trim(lines[i]);
        if !(PF <= line) {
          assert rules + [] == rules;
          continue;
        }
        var parts := Split(line[|PF|..], '|');
        if |parts| < 5 {
          assert rules + [] == rules;
          continue;
        }
        rules := rules + [Rule(parts[0], parts[1], parts[2], parts[3], parts[4])];
      }
      assert lines[..|lines|] == lines;
      return Some(rules);
    }

    method AddPortForwardRule(r: Rule, io: IO) returns (ok: bool)
      modifies this
      ensures ok == (io.openOk && io.writeOk)
      ensures ok ==> file == Some(TextOf(old(file)) + Block(r))
      ensures io.openOk && !ok ==> file == Some(TextOf(old(file)))
      ensures !io.openOk ==> file == old(file)
    {
      if !io.openOk {
        return false;
      }
      if file.None? {
        file := Some("");
      }
      if !io.writeOk {
        return false;
      }
      file := Some(file.value + Block(r));
      return true;
    }

    method DeletePortForwardRule(name: string, io: IO) returns (ok: bool)
      modifies this
      ensures old(file).None? ==> ok && file == None
      ensures old(file).Some? ==> ok == (io.openOk && io.writeOk)
      ensures old(file).Some? ==> file == if ok then Some(Without(old(file).value, name)) else old(file)
    {
      hide Trim, ScanLines, Join;
      if file.None? {
        return true;
      }
      if !io.openOk {
        return false;
      }
      var scanned := ScanLines(file.value);
      var lines: seq<string> := [];
      var skipLeft := 0;
      for i := 0 to |scanned|
        invariant 0 <= skipLeft && (lines, skipLeft) == Scan(scanned[..i], name)
      {
        assert scanned[..i + 1][..i] == scanned[..i];
        var line := scanned[i];
        var trimmed := Trim(line);
        if Marker(name) <= trimmed {
          skipLeft := 3;
          if |lines| > 0 && Trim(lines[|lines| - 1]) == "" {
            lines := lines[..|lines| - 1];
          }
          continue;
        }
        if skipLeft > 0 && IPTABLES <= trimmed {
          skipLeft := skipLeft - 1;
          continue;
        }
        lines := lines + [line];
      }
      assert scanned[..|scanned|] == scanned;
      if !io.writeOk {
        return false;
      }
      file := Some(Join(lines) + "\n");
      return true;
    }
  }

  // ----- what the lines of a block say

  lemma ValidHasWords(r: Rule)
    requires Valid(r)
    ensures Word(r.protocol) && Word(r.extPort) && Word(r.intIP) && Word(r.intPort)
    ensures r.name != "" && NoSpace(r.name) && '|' !in r.name && NoSpace(ToUpper(r.name))
  {
    ValidPortIsWord(r.extPort);
    ValidPortIsWord(r.intPort);
    AddressIsWord(r.intIP);
  }
}
