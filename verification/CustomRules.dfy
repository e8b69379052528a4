/** The custom-rule script `99-custom.sh` (internal/system/firewall.go): one iptables command a line,
    printed from a record and parsed back into one. */
module CustomRules {
  import opened Seqs
  import opened Text
  import opened Options
  import opened Validate
  import opened PortForward

  datatype FirewallRule = FirewallRule(
    chain: string, protocol: string, inIface: string, outIface: string, srcIP: string, dstIP: string,
    srcPort: string, dstPort: string, action: string, comment: string)

  const NoRule := FirewallRule("", "", "", "", "", "", "", "", "", "")

  predicate ValidChain(chain: string) {
    chain == "INPUT" || chain == "FORWARD" || chain == "OUTPUT"
  }

  predicate ValidAction(action: string) {
    action == "ACCEPT" || action == "DROP" || action == "REJECT" || action == "LOG"
  }

  predicate ValidProtocol(protocol: string) {
    protocol == "" || protocol == "tcp" || protocol == "udp" || protocol == "icmp" || protocol == "all"
  }

  /** What `validateFirewallRule` accepts. */
  predicate ValidRule(r: FirewallRule) {
    && ValidChain(r.chain) && ValidAction(r.action) && ValidProtocol(r.protocol)
    && (r.srcIP == "" || AddressText(r.srcIP) || CIDRText(r.srcIP))
    && (r.dstIP == "" || AddressText(r.dstIP) || CIDRText(r.dstIP))
    && (r.srcPort == "" || ValidPort(r.srcPort)) && (r.dstPort == "" || ValidPort(r.dstPort))
    && (r.inIface == "" || ValidIface(r.inIface)) && (r.outIface == "" || ValidIface(r.outIface))
    && '\n' !in r.comment && '\r' !in r.comment
  }

  // ----- words

  function WordEnd(s: string): (i: nat)
    ensures i <= |s| && (s != "" && !IsSpace(s[0]) ==> i > 0)
  {
    if s == "" || IsSpace(s[0]) then 0 else 1 + WordEnd(s[1..])
  }

  lemma TrimLeftShrinks(s: string)
    ensures |TrimLeft(s)| <= |s| && (TrimLeft(s) != "" ==> !IsSpace(TrimLeft(s)[0]))
  {
  }

  /** `strings.Fields`. */
  function Fields(s: string): seq<string>
    decreases |s|
  {
    TrimLeftShrinks(s);
    var t := TrimLeft(s);
    if t == "" then [] else [t[..WordEnd(t)]] + Fields(t[WordEnd(t)..])
  }

  // ----- the parser

  /** What one word does to the record, given the word after it. */
  function SetField(r: FirewallRule, word: string, next: string): FirewallRule {
    if word == "-A" || word == "-I" then r.(chain := next)
    else if word == "-p" then r.(protocol := next)
    else if word == "-i" then r.(inIface := next)
    else if word == "-o" then r.(outIface := next)
    else if word == "-s" then r.(srcIP := next)
    else if word == "-d" then r.(dstIP := next)
    else if word == "--sport" then r.(srcPort := next)
    else if word == "--dport" then r.(dstPort := next)
    else if word == "-j" then r.(action := next)
    else r
  }

  function ParseWords(r: FirewallRule, words: seq<string>): FirewallRule
    decreases |words|
  {
    if words == [] then r
    else ParseWords(SetField(r, words[0], if |words| > 1 then words[1] else ""), words[1..])
  }

  function Parsed(line: string): FirewallRule {
    ParseWords(NoRule, Fields(line))
  }

  method ParseIPTablesLine(line: string) returns (r: FirewallRule)
    ensures r == Parsed(line)
  {
    r := NoRule;
    var fields := Fields(line);
    for i := 0 to |fields|
      invariant ParseWords(NoRule, fields) == ParseWords(r, fields[i..])
    {
      assert fields[i..][1..] == fields[i + 1..];
      var next := if i + 1 < |fields| then fields[i + 1] else "";
      match fields[i] {
        case "-A" => r := r.(chain := next);
        case "-I" => r := r.(chain := next);
        case "-p" => r := r.(protocol := next);
        case "-i" => r := r.(inIface := next);
        case "-o" => r := r.(outIface := next);
        case "-s" => r := r.(srcIP := next);
        case "-d" => r := r.(dstIP := next);
        case "--sport" => r := r.(srcPort := next);
        case "--dport" => r := r.(dstPort := next);
        case "-j" => r := r.(action := next);
        case _ =>
      }
    }
  }

  // ----- the printer

  function Opt(flag: string, value: string): seq<string> {
    if value == "" then [] else [flag, value]
  }

  /** The words of the command for a rule. */
  function Words(r: FirewallRule): seq<string> {
    ["iptables", "-A", r.chain] + Opt("-p", if r.protocol == "all" then "" else r.protocol)
    + Opt("-i", r.inIface) + Opt("-o", r.outIface) + Opt("-s", r.srcIP) + Opt("-d", r.dstIP)
    + Opt("--sport", r.srcPort) + Opt("--dport", r.dstPort) + Opt("-j", r.action)
  }

  function Command(r: FirewallRule): string {
    JoinBy(Words(r), ' ')
  }

  lemma {:induction false} JoinAppend(parts: seq<string>, sep: char, x: string)
    requires parts != []
    ensures JoinBy(parts + [x], sep) == JoinBy(parts, sep) + [sep] + x
  {
    if |parts| == 1 {
      assert (parts + [x])[1..] == [x];
    } else {
      assert (parts + [x])[1..] == parts[1..] + [x];
      JoinAppend(parts[1..], sep, x);
      assert parts[0] + [sep] + (JoinBy(parts[1..], sep) + [sep] + x)
          == parts[0] + [sep] + JoinBy(parts[1..], sep) + [sep] + x;
    }
  }

  lemma JoinOption(words: seq<string>, flag: string, value: string)
    requires words != []
    ensures JoinBy(words + [flag, value], ' ') == JoinBy(words, ' ') + " " + flag + " " + value
  {
    JoinAppend(words, ' ', flag);
    JoinAppend(words + [flag], ' ', value);
    assert words + [flag] + [value] == words + [flag, value];
  }

  method BuildIPTablesCommand(r: FirewallRule) returns (cmd: string)
    ensures cmd == if r.chain == "" || r.action == "" then "" else Command(r)
  {
    hide JoinBy, Opt;
    if r.chain == "" || r.action == "" {
      return "";
    }
    cmd := "iptables -A " + r.chain;
    ghost var words := ["iptables", "-A", r.chain];
    CommandStart(r.chain);
    cmd, words := AddOption(cmd, words, "-p", if r.protocol == "all" then "" else r.protocol);
    cmd, words := AddOption(cmd, words, "-i", r.inIface);
    cmd, words := AddOption(cmd, words, "-o", r.outIface);
    cmd, words := AddOption(cmd, words, "-s", r.srcIP);
    cmd, words := AddOption(cmd, words, "-d", r.dstIP);
    cmd, words := AddOption(cmd, words, "--sport", r.srcPort);
    cmd, words := AddOption(cmd, words, "--dport", r.dstPort);
    cmd, words := AddOption(cmd, words, "-j", r.action);
  }

  lemma CommandStart(chain: string)
    ensures JoinBy(["iptables", "-A", chain], ' ') == "iptables -A " + chain
  {
    JoinOption(["iptables"], "-A", chain);
    assert ["iptables"] + ["-A", chain] == ["iptables", "-A", chain];
    assert JoinBy(["iptables"], ' ') == "iptables";
    assert "iptables" + " " + "-A" + " " == "iptables -A ";
  }

  /** An option and its value, if it has one. */
  method AddOption(cmd: string, ghost words: seq<string>, flag: string, value: string)
    returns (cmd': string, ghost words': seq<string>)
    requires words != [] && cmd == JoinBy(words, ' ')
    ensures cmd' == if value == "" then cmd else cmd + " " + flag + " " + value
    ensures words' == words + Opt(flag, value) && cmd' == JoinBy(words', ' ')
  {
    cmd', words' := cmd, words + Opt(flag, value);
    if value != "" {
      JoinOption(words, flag, value);
      cmd' := cmd + " " + flag + " " + value;
    } else {
      assert words + [] == words;
    }
  }

  /** What is appended for a rule, without the final newline. */
  function Entry(r: FirewallRule): string {
    if r.comment == "" then Command(r) else "# " + r.comment + "\n" + Command(r)
  }

  // ----- the file

  /** The rule that a line of the script displays. */
  function RuleAt(line: string): seq<FirewallRule> {
    if IsIptables(line) && Parsed(Trim(line)).chain != "" then [Parsed(Trim(line))] else []
  }

  function Listed(content: string): seq<FirewallRule> {
    FlatMap(RuleAt, Split(content, '\n'))
  }

  function Commands(lines: seq<string>): nat {
    if lines == [] then 0
    else Commands(lines[..|lines| - 1]) + if IsIptables(lines[|lines| - 1]) then 1 else 0
  }

  /** The lines without the iptables line numbered `index`, counted from 0. */
  function Remaining(lines: seq<string>, index: int): seq<string> {
    if lines == [] then []
    else
      var init, last := lines[..|lines| - 1], lines[|lines| - 1];
      if IsIptables(last) && Commands(init) == index then Remaining(init, index)
      else Remaining(init, index) + [last]
  }

  function Removed(content: string, index: int): string {
    Render(Remaining(Split(content, '\n'), index))
  }

  const SHEBANG := "#!/bin/sh\n"

  function Started(file: Option<string>): string {
    if file.None? then SHEBANG else file.value
  }

  datatype FileIO = FileIO(readOk: bool, createOk: bool, openOk: bool, writeOk: bool)

  class CustomRulesFile {
    var file: Option<string>

    constructor ()
      ensures file == None
    {
      file := None;
    }

    method GetCustomRules(io: FileIO) returns (r: Option<seq<FirewallRule>>)
      ensures r == if file.None? then Some([]) else if io.readOk then Some(Listed(file.value)) else None
    {
      hide Trim, Split, Fields, ParseWords;
      if file.None? {
        return Some([]);
      }
      if !io.readOk {
        return None;
      }
      var lines := Split(file.value, '\n');
      var rules := [];
      for i := 0 to |lines|
        invariant rules == FlatMap(RuleAt, lines[..i])
      {
        assert lines[..i + 1][..i] == lines[..i];
        assert rules + [] == rules;
        var line := Trim(lines[i]);
        if !(IPTABLES <= line) {
          continue;
        }
        var rule := ParseIPTablesLine(line);
        if rule.chain != "" {
          rules := rules + [rule];
        }
      }
      assert lines[..|lines|] == lines;
      return Some(rules);
    }

    method AddCustomRule(r: FirewallRule, io: FileIO) returns (ok: bool)
      modifies this
      ensures r.chain == "" || r.action == "" ==> !ok && file == old(file)
      ensures r.chain != "" && r.action != "" ==>
                ok == ((old(file).None? ==> io.createOk) && io.openOk && io.writeOk)
      ensures ok ==> file == Some(Started(old(file)) + Entry(r) + "\n")
      ensures !ok ==> file == old(file) || file == Some(Started(old(file)))
    {
      var cmd := BuildIPTablesCommand(r);
      if cmd == "" {
        return false;
      }
      if file.None? {
        if !io.createOk {
          return false;
        }
        file := Some(SHEBANG);
      }
      if !io.openOk || !io.writeOk {
        return false;
      }
      var text := cmd;
      if r.comment != "" {
        text := "# " + r.comment + "\n" + cmd;
      }
      file := Some(file.value + text + "\n");
      return true;
    }

    method DeleteCustomRule(index: int, io: FileIO) returns (ok: bool)
      modifies this
      ensures ok == (old(file).Some? && io.readOk && io.writeOk)
      ensures file == if ok then Some(Removed(old(file).value, index)) else old(file)
    {
      if file.None? || !io.readOk {
        return false;
      }
      var lines := Split(file.value, '\n');
      var keep: seq<string> := [];
      var ruleIdx := 0;
      for i := 0 to |lines|
        invariant ruleIdx == Commands(lines[..i]) && keep == Remaining(lines[..i], index)
      {
        assert lines[..i + 1][..i] == lines[..i];
        if IPTABLES <= Trim(lines[i]) {
          if ruleIdx != index {
            keep := keep + [lines[i]];
          }
          ruleIdx := ruleIdx + 1;
        } else {
          keep := keep + [lines[i]];
        }
      }
      assert lines[..|lines|] == lines;
      if !io.writeOk {
        return false;
      }
      file := Some(Join(keep) + "\n");
      return true;
    }
  }
}
