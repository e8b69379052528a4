# Verification of srouter's state machines

srouter keeps the state of a router in text files, a database row, kernel rules and bounded channels,
and edits them with hand-written line loops. This project models those loops in Dafny and proves what
survives a sequence of edits, a partial failure or an interleaving. `dafny verify dfyconfig.toml`
checks everything.

Where the program updates state in place, the model does too: a class holds the file, the row or the
maps, and each method is the program's loop, proved against a specification function. The theorems
over runs are about those functions. Text is a sequence of characters, with the line splitting of
`bufio.Scanner` (including the carriage return it strips), `strings.Split`, `Join`, `TrimSpace` and
`Fields` written out. System calls that can fail are parameters.

- `Seqs`, `Options`, `Text`, `Validate`: sequences, text and the input checks.
- `DnsmasqConf`, `DnsmasqViews`: one configuration file shared by five editors behaves like a record.
- `DnsmasqInputs`: which inputs that file can carry, and what overlapping requests do to it.
- `EncryptedDns`, `DnsRecovery`, `DnsChoices`, `DnsSwitch`: when the encrypted-DNS switch keeps the user's
  upstreams, and how far each request gets.
- `DohStamp`: the DNS stamp decodes to what it was built from.
- `BandwidthLimits`, `BandwidthKernel`, `BandwidthShell`: the compiler from a table of limits to iptables
  and tc commands, a small kernel semantics of those commands, and the shell that runs them.
- `BandwidthFailures`, `BandwidthSuccess`, `BandwidthCases`, `BandwidthEmpty`: what a reported success of
  that shell is worth when commands fail.
- `PortForward`, `PortForwardBlocks`, `PortForwardList`, `PortForwardOwners`, `PortForwardExact`: the
  port-forward script.
- `CustomRules`, `CustomRuleList`, `CustomRuleWords`, `CustomRuleHazards`: the custom-rule script, its
  printer and its parser.
- `Iptables`, `PortForwardMeaning`, `CustomRuleMeaning`: what the shell and iptables make of the lines of
  these two scripts, and what becomes of the packets.
- `Reservations`, `ReservationList`, `ReservationHazards`: the DHCP reservations and the requests that
  change them.
- `LogBroadcaster`, `LogDelivery`, `LogSearch`: the log broadcaster and what its subscribers receive.
- `DnsStats`, `DnsCounting`, `DnsLines`, `DnsReplies`: the statistics drawn from the log.
- `RateLimiter`, `RebootSchedule`: the login limiter and the reboot schedule.

## What the code does not do as its comments or callers suggest

For each of these the project has the exact condition, as an if-and-only-if over all inputs, and an
input or a run for which the code fails.

- The login limiter allows up to 2*limit - 1 requests in a window (`RateLimiter.DocumentedBound`,
  `RateLimiter.BoundIsReached`).
- The device of rank 20 in MAC order gets the id of the default class and is not limited, and devices
  past rank 235 are not limited at all (`BandwidthKernel.LimitHonoured`,
  `BandwidthKernel.TwentyFirstUnlimited`, `BandwidthKernel.LateUnlimited`, `BandwidthKernel.TableOf`).
- A reboot that is cancelled can still happen (`RebootSchedule.CancelExact`,
  `RebootSchedule.CancelledRebootHappens`, `RebootSchedule.DueRebootHappens`).
- Switching encryption on while it is on, or when the upstreams cannot be read, can lose the upstreams;
  switching it off while it is off can change them; and upstreams set on the DNS page while it is on
  are lost by a switch-off (`DnsRecovery.ToggleOnExact`, `DnsRecovery.SwitchOffExact`,
  `DnsRecovery.SecondSwitchOnLoses`, `DnsRecovery.FirstSwitchOffReplaces`,
  `DnsRecovery.PageWhileEncrypted`).
- The DNS page accepts an empty list of servers and stub addresses. Switching encryption on and off then
  brings the built-in servers, or loses the stub address (`DnsChoices.OnThenOffExact`,
  `DnsChoices.PageExact`, `DnsChoices.EmptyChoiceLost`, `DnsChoices.StubChoiceLost`).
- A host or a path of 256 bytes or more makes a stamp that does not decode to it
  (`DohStamp.StampRoundTrip`, `DohStamp.LongHostMisread`).
- Deleting a custom rule by its number deletes another line if an iptables line without a chain comes
  before it (`CustomRuleList.DeleteByNumber`, `CustomRuleHazards.FlushDeleted`); adding one to a file
  that does not end in a newline glues it to the last line (`CustomRuleHazards.AddExact`,
  `CustomRuleHazards.GluedLost`).
- Deleting a port-forward rule whose block was cut short takes a line of another block
  (`PortForwardExact.DeleteExact`, `PortForwardExact.ShortBlockLosesLine`).
- A port-forward rule whose internal port is a range, as it is when a range is forwarded and no internal
  port is given, forwards nothing (`PortForwardMeaning.ForwardedExact`,
  `PortForwardMeaning.RangeIsNotForwarded`).
- A custom rule with a port and no protocol that has ports, or with an interface that its chain does not
  have, is displayed and has no effect (`CustomRuleMeaning.CommandMeaning`,
  `CustomRuleMeaning.PortNeedsProtocol`).
- The time and message of a log line are not found on the first nine days of a month, which syslog pads
  with a blank (`LogSearch.SyslogExact`).
- Deleting a reservation also deletes lines that merely mention its address
  (`ReservationList.DeleteExact`, `ReservationHazards.NeighbourDeleted`); the duplicate check is skipped
  when the file cannot be read (`ReservationList.BlindAddExact`), and a comma slips past it
  (`ReservationHazards.AnyAddExact`, `ReservationHazards.CommaSlipsPast`).
- A forwarded domain that ends in "cached" is counted as a cache hit, and the domain "to" as an
  upstream (`DnsLines.ForwardedSays`, `DnsLines.MisreadLines`); so is a reply for a domain that ends in
  "cached" (`DnsReplies.AnswerSays`, `DnsReplies.ReplyCounted`).
- A command of the bandwidth script may fail and success be reported although the kernel does not
  enforce the table (`BandwidthSuccess.SuccessExact`, `BandwidthEmpty.EmptyTableExact`,
  `BandwidthCases.MarkFailuresExact`, `BandwidthCases.UnnoticedFailure` and the other members of
  `BandwidthCases`).
- Additions of reservations that overlap may both pass the check (`ReservationHazards.InterleavedExact`,
  `ReservationHazards.RaceExact`, `ReservationHazards.RaceDuplicates`).
- An edit of the shared file may be overwritten by a request that read the file before it
  (`DnsmasqInputs.StaleWrite`, `DnsmasqInputs.StaleDeletionLosesEntry`).
- Running the bandwidth script again is not the same as running it once when jumps of the interface are
  spread over the chain (`BandwidthKernel.RunTwiceExact`, `BandwidthKernel.RunTwiceDiffers`).

## Model

| member | source | states |
|---|---|---|
| `DnsmasqConf.Dnsmasq.GetUpstreamServers` | internal/system/dns.go:20-37 | the addresses on all `server=` lines in order, or an error when the file cannot be opened |
| `DnsmasqConf.Dnsmasq.SetUpstreamServers` | internal/system/dns.go:39-63 | the whole new file content; a failed reload is reported although the file has already been written |
| `DnsmasqConf.Dnsmasq.GetLocalEntries` | internal/system/dns.go:65-86 | the host and address of every `address=/` line that holds a second slash |
| `DnsmasqConf.Dnsmasq.AddLocalEntry` | internal/system/dns.go:88-96 | the file grows by exactly one line of text, or stays as it is |
| `DnsmasqConf.Dnsmasq.DeleteLocalEntry` | internal/system/dns.go:98-116 | the file without the lines of that host, or an unchanged file when a system call fails |
| `DnsmasqConf.Dnsmasq.GetDHCPConfig` | internal/system/dhcp.go:136-160 | later range lines override earlier ones field by field |
| `DnsmasqConf.Dnsmasq.SaveDHCPConfig` | internal/system/dhcp.go:162-184 | all range lines replaced by one, with the lease time defaulting to 24h |
| `DnsmasqConf.Dnsmasq.SetStrictOrder` | internal/system/doh.go:392-419 | the directive removed everywhere and, if wanted, put first; a trailing newline that is already there is not doubled |
| `DnsmasqViews.EditRefines` | internal/system/dns.go:39-116 | for every file content and every input that a line can carry, each of the five editors is the update of one field of a record of views: the other views and every other non-blank line are unchanged and in order, and the file ends in a newline |
| `DnsmasqViews.RunRefines` | internal/system/dns.go:39-116 | the same over any sequence of edits to the shared file |
| `DnsmasqViews.EditRows` | internal/system/dhcp.go:162-184 | the exact rows of the file after each edit: which disappear, which are added and where |
| `DnsmasqViews.StrictRows` | internal/system/doh.go:411-414 | setting strict order changes no other row, although it can swallow one blank line at the end of the file |
| `DnsmasqViews.DeleteHostView` | internal/system/dns.go:98-116 | for a host without a slash, exactly the entries of that host go |
| `DnsmasqViews.DeleteEntryView` | internal/system/dns.go:106-110 | for every host text: exactly the entries whose host and address joined by a slash begin with the host and a slash go |
| `DnsmasqViews.UnclaimedViews` | internal/system/dns.go:50-53 | the lines one editor removes say nothing to the views of the other editors |
| `DnsmasqInputs.SetServersExact` | internal/system/dns.go:39-63 | the servers that were set are read back if and only if each is one line without trailing white space |
| `DnsmasqInputs.SaveRangeExact` | internal/system/dhcp.go:136-184 | what the unchecked DHCP page saves is read back, with an empty lease time as 24h, if and only if no field holds a comma or a newline and no white space follows the lease time |
| `DnsmasqInputs.AddEntryExact` | internal/system/dns.go:88-96 | a blind append adds one entry and keeps the others if and only if the host holds no slash, neither text a newline, no white space follows the address, and only white space follows the last newline of the file |
| `DnsmasqInputs.EditExact` | internal/system/dns.go:39-116 | on a newline-terminated file every edit is the update of one view if and only if its input is one that a line can carry |
| `DnsmasqInputs.LineFormats` | internal/system/dns.go:30-111 | the lines letter for letter, as they are written and as they are read: `server=`, `address=/`, `dhcp-range=` with 24h as the default lease time, and `strict-order` |
| `DnsmasqInputs.RangesExact` | internal/system/dhcp.go:136-160 | whatever range lines the file has, start and end come from the last one with two fields or more, the lease time from the last one with three or more, and what no line gives is empty |
| `DnsmasqInputs.ShortLineMovesRange` | internal/system/dhcp.go:136-160 | for instance a line of two fields behind one of three moves the range and keeps the lease time |
| `DnsmasqInputs.StaleWrite` | internal/system/dns.go:39-116 | when a rewriting request has read the file before another one finished, what it leaves is what the two leave one after the other if and only if the other one had nothing to change in another view, or, in the same view, is overridden: always by setting servers, range or strict order, and by a deletion exactly when it takes every entry that the other one added or deleted |
| `DnsmasqInputs.StaleDeletionLosesEntry` | internal/system/dns.go:98-116 | an entry added meanwhile is lost when the entries of another host are deleted from a stale copy |
| `EncryptedDns.StashUpstreams` | internal/system/doh.go:467-479 | the non-stub addresses joined by commas, or the previous stash when there are none |
| `EncryptedDns.RestoreUpstreams` | internal/system/doh.go:511-524 | the trimmed non-empty parts of the stash, or the two built-in resolvers when there are none |
| `EncryptedDns.BuildEncryptedServers` | internal/system/doh.go:440-454 | first DNS over TLS, then DNS over HTTPS, then the stashed upstreams if the fallback is wanted |
| `DnsSwitch.Switch.EnableEncryptedDNS` | internal/system/doh.go:241-284 | success if and only if every call that is needed succeeds, the stub configurations being needed only where the stub is installed; the row is the new one unless saving it fails; the file is unchanged if a step before its first write fails, and else has the DNS-over-TLS stub, the DNS-over-HTTPS stub and the fallback servers as its servers, in that order; and after success encryption and strict order are on |
| `DnsSwitch.Switch.DisableEncryptedDNS` | internal/system/doh.go:287-309 | success if and only if every call succeeds; the row is switched off unless one up to saving it fails; the file is unchanged if strict order cannot be removed, has no strict order otherwise, and has the stashed servers once they could be written |
| `DnsSwitch.Switch.Toggle` | internal/handler/doh.go:66-113 | exactly when a switch-on is refused; where each value of the form ends up in the row, cloudflare being the default provider, and that the stash of the row is not carried over; and success, row and file as above |
| `DnsSwitch.Switch.SaveConfig` | internal/handler/doh.go:115-152 | where each value of the form ends up in the row; the stash is carried over, and the configuration is applied at once exactly when encryption is on, with success, row and file as above |
| `DnsRecovery.StashRoundTrip` | internal/system/doh.go:467-524 | for every list of servers: restoring a fresh stash gives the non-stub servers back if and only if each of them is trimmed, non-empty and free of commas, and without any it gives what the old stash gave |
| `DnsRecovery.SwitchedOffServers` | internal/system/doh.go:287-309 | in every state a completed switch-off leaves exactly what the stash decodes to |
| `DnsChoices.StashFormat` | internal/system/doh.go:467-524 | the stash letter for letter: the servers that are no stub, joined by a comma; and the two built-in servers |
| `DnsRecovery.EnableKeeps` | internal/system/doh.go:241-284 | when what is about to be stashed decodes to the upstreams, they are recoverable at every point where switching on or re-applying can stop, and the other fields of the shared file are untouched; a completed call leaves the stubs in front, strict order on and the upstreams in the stash |
| `DnsRecovery.DisableKeeps` | internal/system/doh.go:287-309 | the same for switching off; a completed call leaves exactly the upstreams and no strict-order line |
| `DnsRecovery.StepKeeps` | internal/handler/doh.go:66-152 | every safe request of the user interface, cut off after any number of its writes, keeps the upstreams; page edits are safe at any time, also new upstreams while encryption is on |
| `DnsRecovery.AlwaysRecoverable` | internal/system/doh.go:241-309 | after any sequence of safe requests the upstreams the user last chose are the non-stub servers of the file, or the file has none and the stash decodes to them; while encryption is off they are exactly the servers of the file |
| `DnsRecovery.CarefulIsSafe` | internal/handler/doh.go:66-152 | switching on while off and readable, off while on, re-applying at any time, and new upstreams while off are always safe and keep the stash up to date |
| `DnsRecovery.SwitchOffRestores` | internal/system/doh.go:287-309 | after such careful requests a completed switch-off leaves exactly the chosen upstreams and no strict-order line |
| `DnsRecovery.OnThenOff` | internal/handler/doh.go:66-113 | a completed switch-on followed by a completed switch-off gives the servers back |
| `DnsRecovery.ToggleOnExact` | internal/handler/doh.go:77-100 | because the toggle carries no stash, switching on (also when it is on already) keeps the upstreams recoverable if and only if the file holds them when only the row has been written, and if they were read from the file once it has been overwritten, or if they are the built-in ones |
| `DnsRecovery.ReapplyExact` | internal/handler/doh.go:115-144 | a re-apply that has overwritten the servers keeps them recoverable if and only if they were read from the file or in the stash |
| `DnsRecovery.SwitchOffExact` | internal/system/doh.go:287-309 | a completed switch-off, of a switch that is on or off, leaves the chosen upstreams if and only if the stash decodes to them |
| `DnsRecovery.StashStaysPlain` | internal/system/doh.go:467-479 | every request keeps the stash one that decodes to plain upstreams, so the exact conditions apply in every reachable state |
| `DnsRecovery.PageWhileEncrypted` | internal/handler/dns.go:67-87 | upstreams set on the DNS page while encryption is on are lost by a switch-off, which brings the old ones back, unless they are the same; a re-apply that reads the file, cut off anywhere, stashes them |
| `DnsChoices.OnThenOffExact` | internal/handler/doh.go:66-113 | for every state of the row and the file, a completed switch-on and switch-off give the servers back if and only if there are any, none is a stub address, and each is trimmed, not empty and free of commas |
| `DnsChoices.OnAndOffServers` | internal/system/doh.go:241-309 | what comes back in every state: the non-stub servers as the stash carries them, or the built-in ones |
| `DnsChoices.PageExact` | internal/handler/dns.go:67-87 | any servers set on the DNS page while encryption is on, stubs or none at all included: a switch-off leaves what the stash decodes to, and a re-apply and a switch-off give them back if and only if there are any, none is a stub address, and each is trimmed, not empty and free of commas |
| `DnsChoices.EmptyChoiceLost` | internal/handler/dns.go:67-87 | after the DNS page has removed every server, switching on and off brings the built-in ones |
| `DnsChoices.StubChoiceLost` | internal/handler/dns.go:67-87 | a stub address set on the DNS page behind another server is gone after switching on and off |
| `DnsRecovery.SecondSwitchOnLoses` | internal/handler/doh.go:66-102 | two completed switch-ons without the plain fallback lose every choice but the built-in one |
| `DnsRecovery.FirstSwitchOffReplaces` | internal/handler/doh.go:103-104 | a switch-off where nothing was ever stashed replaces the upstreams by the built-in ones |
| `DnsRecovery.ToggleOffExact` | internal/handler/doh.go:103-104 | switching off a switch that is off keeps the servers if and only if they are what the stash says |
| `DohStamp.BuildDoHStamp` | internal/system/doh.go:361-384 | an error unless the URL parses with the scheme https; otherwise a text that an independent decoder reads as the host and path of the URL, with the path "/dns-query" if it has none, if and only if both are shorter than 256 bytes |
| `DohStamp.EncodeExamples` | internal/system/doh.go:383 | examples of section 10 of RFC 4648, and one with the characters in which base64url differs |
| `DohStamp.StampExample` | internal/system/doh.go:373-381 | the bytes of a short stamp |
| `DohStamp.WriteLP` | internal/system/doh.go:386-389 | a length byte, cut to eight bits, and the data |
| `DohStamp.DecodeEncode` | internal/system/doh.go:383 | decoding unpadded base64url (section 5 of RFC 4648) inverts encoding, for every byte string |
| `DohStamp.ReadLPExact` | internal/system/doh.go:386-389 | a field reads back when it is shorter than 256 bytes, and comes back too short otherwise |
| `DohStamp.StampRoundTrip` | internal/system/doh.go:361-389 | the stamp decodes, by the layout of DNS-over-HTTPS stamps in the DNS Stamps specification, to its host and path and to no properties, address or hash, if and only if both fit in a one-byte length |
| `DohStamp.LongHostMisread` | internal/system/doh.go:361-389 | any host name of 256 bytes makes a stamp that decodes to something else |
| `BandwidthLimits.SortKeys` | internal/system/bandwidth_limits.go:138-142 | the keys of the table in ascending order, whatever order the map delivers them in |
| `BandwidthLimits.AscendingUnique` | internal/system/bandwidth_limits.go:135-142 | a set of MAC addresses has only one ascending enumeration |
| `BandwidthLimits.GenerateBandwidthScript` | internal/system/bandwidth_limits.go:137-187 | the command list of the two loops, which agree on ids, up to the id 245 |
| `BandwidthKernel.RunProgram` | internal/system/bandwidth_limits.go:144-186 | the kernel state after the script in closed form, from any kernel state |
| `BandwidthKernel.MarksAsWanted` | internal/system/bandwidth_limits.go:154-164 | a packet to the device of rank k in MAC order is marked 10+k as long as that id is at most 245; every other packet stays unmarked |
| `BandwidthKernel.RatesAsWanted` | internal/system/bandwidth_limits.go:166-184 | every packet is queued in a class of the rate the table asks for, and of 1000 Mbit/s if the device is unlisted, past the last id or of rank 20 |
| `BandwidthKernel.ScriptEnforces` | internal/system/bandwidth_limits.go:137-187 | from any earlier kernel state the script enforces the table and leaves the other POSTROUTING rules, in order, and the other interfaces alone |
| `BandwidthKernel.LimitHonoured` | internal/system/bandwidth_limits.go:168-184 | a listed device gets its own limit if and only if its rank is at most 235 and not 20 (id 30 is the default class), or its limit is the line rate |
| `BandwidthKernel.TwentyFirstUnlimited` | internal/system/bandwidth_limits.go:168-184 | in every table of more than 20 devices the one of rank 20 has the line rate |
| `BandwidthKernel.DeviceGets` | internal/system/bandwidth_limits.go:144-184 | in numbers: a device of rank up to 235 has the mark 10 plus its rank, and its own limit unless its rank is 20; every other packet is unmarked and has 1000 Mbit/s |
| `BandwidthKernel.LateUnlimited` | internal/system/bandwidth_limits.go:154-184 | in every table of more than 236 devices those past rank 235 have the line rate |
| `BandwidthKernel.TableOf` | internal/system/bandwidth_limits.go:154-163 | tables of every size up to 10000 exist, hence of 21 and of 237 devices, with every address limited to 10 Mbit/s |
| `BandwidthKernel.ScriptIsDetermined` | internal/system/bandwidth_limits.go:135-142 | the script does not depend on the iteration order of the map |
| `BandwidthKernel.RankIsStable` | internal/system/bandwidth_limits.go:135-136 | ids grow strictly with the MAC address and do not change when only rates change |
| `BandwidthKernel.RankIsIndex` | internal/system/bandwidth_limits.go:154-163 | the id that the loop counts up to is the number of smaller MAC addresses |
| `BandwidthKernel.RunTwiceExact` | internal/system/bandwidth_limits.go:149-184 | running the script twice leaves the kernel of running it once if and only if, once the first jump is removed, the rules have all other jumps of the interface at their end |
| `BandwidthKernel.RunTwiceDiffers` | internal/system/bandwidth_limits.go:149-164 | for instance with two such jumps in front of another rule the second run changes the kernel |
| `BandwidthKernel.RunTwiceIsOnce` | internal/system/bandwidth_limits.go:149-184 | in particular from a kernel with at most one such jump, as every run leaves it |
| `BandwidthShell.Limiter.ApplyAll` | internal/system/bandwidth_limits.go:103-126 | when the shell runs, the kernel is what the script with its failed commands leaves, and the result is the exit status, that is of the last command; without failed commands it is success and the kernel enforces the table; before the shell nothing changes the kernel |
| `BandwidthShell.Limiter.SetBandwidthLimit` | internal/system/bandwidth_limits.go:69-85 | the table gains the limit as soon as the row is written, also when applying it then fails |
| `BandwidthShell.Limiter.DeleteBandwidthLimit` | internal/system/bandwidth_limits.go:89-97 | the table loses the row, and without failed commands the device gets the line rate |
| `BandwidthShell.CleanStatus` | internal/system/bandwidth_limits.go:122-124 | without failures from outside the script reports success, from any earlier kernel state |
| `BandwidthShell.SkippedCommand` | internal/system/bandwidth_limits.go:122-124 | one failing command is a command less: the shell goes on |
| `BandwidthSuccess.SuccessExact` | internal/system/bandwidth_limits.go:122-186 | for every kernel, every table that lists a device and every set of failed commands: when the exit status is success, and when the kernel enforces the table, both told by the failed positions and by what was in the kernel before |
| `BandwidthEmpty.EmptyTableExact` | internal/system/bandwidth_limits.go:122-186 | the same for the table that lists no device |
| `BandwidthCases.DeviceFailuresExact` | internal/system/bandwidth_limits.go:154-184 | for any failures of commands for devices but the last one, success is reported, and the kernel enforces the table if and only if every mark was set and every device but the one of rank 20 kept its class and filter, or lost the filter and wants the line rate |
| `BandwidthCases.MarkFailuresExact` | internal/system/bandwidth_limits.go:154-163 | for any failures of mark commands, success is reported, and the kernel enforces the table if and only if there were none |
| `BandwidthCases.LastFailureReported` | internal/system/bandwidth_limits.go:168-184 | a failure of the last command is reported, whatever else failed |
| `BandwidthCases.HarmlessFailure` | internal/system/bandwidth_limits.go:147-152 | a failed test for the interface, removal of the old jump or removal of the old chain is not reported and does no harm |
| `BandwidthCases.FlushFailure` | internal/system/bandwidth_limits.go:151 | a failed flush is not reported, and harmless if and only if the old chain marks no device that is not served |
| `BandwidthCases.CreationFailure` | internal/system/bandwidth_limits.go:153 | a failed creation of the chain is not reported, and harmless if and only if there was a chain that another jump keeps |
| `BandwidthCases.JumpFailure` | internal/system/bandwidth_limits.go:164 | a failed jump is not reported, and harmless if and only if a second old jump is there |
| `BandwidthCases.RemovalFailure` | internal/system/bandwidth_limits.go:167-168 | when the old queueing discipline is not removed: harmless if there was none; reported if it is no tree; and if it is a tree, reported exactly when it has a filter for the last device, with the exact condition for its classes and filters to do |
| `BandwidthCases.DisciplineFailure` | internal/system/bandwidth_limits.go:168 | a missing queueing discipline is reported |
| `BandwidthCases.TopClassFailure` | internal/system/bandwidth_limits.go:169 | a missing top class is never reported and never harmless |
| `BandwidthCases.DefaultClassFailure` | internal/system/bandwidth_limits.go:170 | a missing default class is not reported, and harmless if and only if the device of rank 20 makes one of the line rate |
| `BandwidthCases.UnnoticedFailure` | internal/system/bandwidth_limits.go:122-124 | for instance when marking the last device fails: success is reported and the device keeps the line rate |
| `RateLimiter.IPRateLimiter.Allow` | internal/middleware/ratelimit.go:48-63 | the decision and the whole bucket map after it |
| `RateLimiter.FirstOfEachWindow` | internal/middleware/ratelimit.go:48-63 | in any run exactly the first max(1, limit) requests of an address in each of its windows are allowed; a window opens with the first request after the one before it has expired, whatever the limit |
| `RateLimiter.QuietIsAllowed` | internal/middleware/ratelimit.go:48-63 | an address that has been allowed less than max(1, limit) requests in the window that ends now is allowed |
| `RateLimiter.LateIsAllowed` | internal/middleware/ratelimit.go:48-63 | for instance a second request more than two windows after the first |
| `RateLimiter.BucketCounts` | internal/middleware/ratelimit.go:48-63 | a bucket counts exactly the requests allowed since it was opened, and never more than max(1, limit) |
| `RateLimiter.SlidingWindowBound` | internal/middleware/ratelimit.go:48-63 | every closed interval as long as the window holds at most 2*max(1, limit) - 1 allowed requests of one address |
| `RateLimiter.BoundIsReached` | internal/middleware/ratelimit.go:48-63 | for every limit some run reaches that bound |
| `RateLimiter.DocumentedBound` | internal/middleware/ratelimit.go:23-32 | "at most limit requests per window" holds of all windows of that length if and only if the limit is 1 |
| `RateLimiter.AddressesAreIndependent` | internal/middleware/ratelimit.go:48-63 | the bucket of an address and the next decision about it depend on the requests of that address only |
| `RebootSchedule.NextOccurrence` | internal/system/reboot.go:75-83 | the least instant at or after now at which a minute begins that a 24-hour clock shows as the text, digit for digit; hence within 24 hours |
| `RebootSchedule.ValidTimes` | internal/handler/system.go:21 | the texts the handler accepts are exactly those that a 24-hour clock shows |
| `RebootSchedule.Control.Schedule` | internal/handler/system.go:78-100 | the time is stored before the loop is signalled; an invalid time or a database error changes nothing |
| `RebootSchedule.Control.CancelSchedule` | internal/handler/system.go:102-115 | the loop is signalled before the row is deleted |
| `RebootSchedule.Control.WatchRound` | internal/system/reboot.go:50-71 | one round of the loop, by what it reads, whether a signal is pending, and which of a pending signal and an expired timer the select takes |
| `RebootSchedule.NoLostWakeUp` | internal/system/reboot.go:50-71 | over any interleaving of saves and loop steps: when no signal is pending and no saver is between write and signal, a waiting loop is armed with the stored time or blocked on an empty schedule |
| `RebootSchedule.OnlyCancelsAreMissed` | internal/system/reboot.go:50-71 | with cancellations too, the only way to be out of date is to be armed for a cancelled reboot |
| `RebootSchedule.CancelExact` | internal/handler/system.go:102-107 | for every run with any steps of the loop between signal and deletion and after it, the cancellation takes effect if and only if the timer does not fire and the loop has not come round to waiting on the old schedule before the deletion (two steps from waiting, three from reading) |
| `RebootSchedule.CancelledRebootHappens` | internal/handler/system.go:102-107 | a run in which the user cancels and the router reboots all the same |
| `RebootSchedule.DueRebootHappens` | internal/system/reboot.go:60-65 | a run in which the timer is taken although the cancellation has signalled and deleted |
| `LogBroadcaster.Broadcaster.Subscribe` | internal/system/logs.go:127-163 | one atomic step: a new channel that holds the replay, under the next id |
| `LogBroadcaster.Broadcaster.Unsubscribe` | internal/system/logs.go:157-162 | the subscriber is gone and its channel closed; nothing else changes |
| `LogBroadcaster.Broadcaster.ReplayCategory` | internal/system/logs.go:135-140 | blocking sends of one category, which have room in every reachable state |
| `LogBroadcaster.Broadcaster.ReplayAll` | internal/system/logs.go:141-152 | dropping sends of all categories, in any order of the map |
| `LogBroadcaster.Broadcaster.FanOut` | internal/system/logs.go:211-218 | the line is offered to exactly the matching subscribers, in whatever order the map delivers them |
| `LogBroadcaster.Broadcaster.ReceiveLine` | internal/system/logs.go:127-131 | a subscriber takes the oldest line it has not taken yet |
| `LogBroadcaster.Broadcaster.PublishLine` | internal/system/logs.go:193-219 | one round of the tail loop: history and channels after one line |
| `LogDelivery.HistoryIsRecent` | internal/system/logs.go:101-104 | in every reachable state the history of a category is the last 150 published lines of it |
| `LogDelivery.ReplayIsComplete` | internal/system/logs.go:131-152 | a blocking replay never blocks and a replay of all categories never drops (4*150 <= 814) |
| `LogDelivery.SentIsStream` | internal/system/logs.go:127-219 | under any interleaving the lines sent to a subscriber are exactly the matching recent lines at subscription, then every later matching line that does not find the buffer full, until it unsubscribes; a channel is open exactly while subscribed |
| `LogDelivery.ChannelsCarryStreams` | internal/system/logs.go:127-219 | the invariant behind it, for every subscriber and every event |
| `LogDelivery.MethodsMayRun` | internal/system/logs.go:135-162 | what the methods above require holds in every reachable state; in particular no send reaches a closed channel |
| `LogDelivery.StreamAfter` | internal/system/logs.go:133-154 | a subscriber that keeps up gets its replay followed by every later matching line |
| `LogDelivery.NoGapAtTheBoundary` | internal/system/logs.go:133-154 | with at most 150 earlier lines of a category it gets all lines of that category ever published, none missing or repeated between replay and live lines |
| `LogDelivery.SubscriberGetsBoth` | internal/system/logs.go:127-219 | for instance one line of the category before the subscription and one after it: the subscriber gets both |
| `LogSearch.SearchedExactly` | internal/system/logs.go:127-231 | a live subscriber with any filter that keeps up has been sent exactly the last 150 lines of its category at the subscription (or those of all categories) and all later lines, as far as the category fits and the search text occurs in the line, letter for letter ignoring ASCII case |
| `LogSearch.DroppedWhenFull` | internal/system/logs.go:131-218 | in every reachable state a published line that a subscriber wants is sent to it if and only if fewer than 814 lines wait |
| `LogSearch.SearcherGets` | internal/system/logs.go:223-231 | for instance a search for eth0 in all categories |
| `LogSearch.CategoryExact` | internal/system/logs.go:244-255 | the category of a line goes by the words that occur in it, with the order of precedence spelled out |
| `LogSearch.SyslogExact` | internal/system/logs.go:236-243 | the time and the message of a syslog line are found if and only if its day is not padded with a blank |
| `LogSearch.IncomingExact` | internal/system/logs.go:193-203 | what is published is the line without its line end, and nothing if that is empty |
| `DnsStats.Collector.ParseLine` | internal/system/dns_stats.go:61-90 | all five counters after a line, by what the line says |
| `DnsStats.Collector.Stats` | internal/system/dns_stats.go:92-123 | the counters, a hit rate that is the exact percentage and within [0, 100] while hits do not exceed queries, and a list of at most ten domains as in `Top` |
| `DnsStats.CompleteIsTop` | internal/system/dns_stats.go:101-108 | the first ten of a descending list of all domains: descending, distinct, with their counts, and dominating every domain left out |
| `DnsStats.SortByCount` | internal/system/dns_stats.go:105 | some descending permutation of the domains |
| `DnsStats.PlainQueries` | internal/handler/doh.go:228-237 | the sum of the counts of all upstreams that are no stub |
| `DnsCounting.CountersCount` | internal/system/dns_stats.go:61-90 | over any log each counter is the number of lines that say what it counts, also per domain and per upstream |
| `DnsCounting.Conservation` | internal/system/dns_stats.go:61-90 | hits never exceed queries, domain counts never the queries, upstream counts never the forwards; they are equal if and only if every such line names a domain or an upstream |
| `DnsCounting.PageSplits` | internal/handler/doh.go:178-184 | the DoT, DoH and plain counts of the page add up to all upstream counts |
| `DnsCounting.TopCountsDetermined` | internal/system/dns_stats.go:101-108 | the counts on the list are the same however the map is walked and ties are sorted |
| `DnsLines.QuerySays` | internal/system/dns_stats.go:67-75 | a query line is counted for the domain it asks for |
| `DnsLines.CachedSays` | internal/system/dns_stats.go:76-82 | a cache-hit line is counted for the domain that was found |
| `DnsLines.ForwardedSays` | internal/system/dns_stats.go:83-88 | a forwarding line is counted for its upstream if and only if the domain does not end in "cached" and is not "to" |
| `DnsLines.MisreadLines` | internal/system/dns_stats.go:83-88 | two such lines, with the prefix of dnsmasq |
| `DnsLines.FirstWordExact` | internal/system/dns_stats.go:129-136 | a word ends at a blank or a tab, whatever white space is in front of it |
| `DnsReplies.AnswerSays` | internal/system/dns_stats.go:61-90 | any other line that names a domain and an answer, such as a reply, is ignored if and only if neither its kind nor its domain ends in "cached" or "forwarded", and counted as a hit if and only if one of them ends in "cached" |
| `DnsReplies.ReplyCounted` | internal/system/dns_stats.go:76-82 | for instance the reply for the host nas.cached is counted as a hit |
| `DnsLines.LogCounts` | internal/system/dns_stats.go:61-146 | the counters after a log of such lines and of any lines without the three texts are the numbers of the events themselves |
| `PortForward.PortForwardFile.GetPortForwardRules` | internal/system/firewall.go:157-188 | the rules of all comment lines with at least five fields, nothing for a missing file |
| `PortForward.PortForwardFile.AddPortForwardRule` | internal/system/firewall.go:190-210 | the file, created if missing, grows by exactly the block of the rule |
| `PortForward.PortForwardFile.DeletePortForwardRule` | internal/system/firewall.go:212-250 | the file rewritten by the deleter; a missing file is left missing |
| `PortForwardBlocks.CommentSays` | internal/system/firewall.go:166-204 | the reader gets back the rule that the comment was printed from, for every validated rule |
| `PortForwardBlocks.CommentFormat` | internal/system/firewall.go:155-204 | the comment letter for letter |
| `PortForwardBlocks.CommentReads` | internal/system/firewall.go:166-186 | any comment line is read as its first five fields, and as no rule if it has fewer |
| `PortForwardBlocks.AddedLines` | internal/system/firewall.go:198-208 | the lines a block adds to any file: a blank line only after a final newline |
| `PortForwardBlocks.DeleteAfterAdd` | internal/system/firewall.go:190-250 | adding a rule makes no difference to a newline-terminated file from which its name is then deleted |
| `PortForwardBlocks.DeleteUndoesAdd` | internal/system/firewall.go:190-250 | on a file without the name, deleting what was added gives the file back byte for byte if and only if it was not empty, ended in a newline and had no line ending in a carriage return |
| `PortForwardList.AddAppendsRule` | internal/system/firewall.go:190-210 | in any file, adding appends one rule to those displayed |
| `PortForwardList.DeleteFiltersRules` | internal/system/firewall.go:212-250 | in any file, deleting any name text leaves the rules of the lines it does not mark; for a name that a rule can have these are the rules of other names ("web" never touches "web2") |
| `PortForwardOwners.DeleteRemovesBlocks` | internal/system/firewall.go:221-247 | when every block has its three iptables lines before the next one starts, deleting any name text removes the lines of its blocks and keeps every other line and its block |
| `PortForwardExact.DeleteExact` | internal/system/firewall.go:221-247 | in any file and for any name text, deleting leaves exactly the non-blank lines outside the blocks of the name, in order, if and only if no iptables line is met outside these blocks while the last of them lacks lines; otherwise lines are lost |
| `PortForwardExact.ShortBlockLosesLine` | internal/system/firewall.go:233-244 | a block without its last line, before a whole block, takes a line of that block with it |
| `PortForwardOwners.AddAppendsBlock` | internal/system/firewall.go:190-210 | adding to a file with complete blocks appends the four lines of a complete block |
| `PortForwardOwners.RunRefines` | internal/system/firewall.go:190-250 | any run of additions and deletions does to the file what it would do to a list of rules and a list of owned lines, and keeps all blocks complete; the names to delete are any texts for the lines, and names a rule can have for the rules |
| `PortForwardMeaning.NatMeaning` | internal/system/firewall.go:200-204 | what iptables reads in the first command of a block: DNAT in PREROUTING of the table nat for packets of the protocol from ppp0 to the external port, with the internal address and port as its destination; and that it refuses the command if and only if the address or the internal port holds a colon |
| `PortForwardMeaning.ForwardMeaning` | internal/system/firewall.go:205-206 | what it reads in the other two: for packets that open a connection from ppp0 to lan to the internal address and port, LOG and ACCEPT in FORWARD |
| `PortForwardMeaning.PrefixSays` | internal/system/firewall.go:196 | the log prefix is the name in capital letters and a colon |
| `PortForwardMeaning.BlockRuns` | internal/system/firewall.go:197-207 | the chains after the block, from any chains: the rules behind those that were there, and no other chain touched |
| `PortForwardMeaning.BlockForwards` | internal/system/firewall.go:197-207 | what becomes of any packet behind the block, with any rules in front of it |
| `PortForwardMeaning.ForwardedExact` | internal/system/firewall.go:197-207 | a connection from the internet to the external port reaches the internal address and port and is accepted if and only if these are one IPv4 address and one port |
| `PortForwardMeaning.RangeIsNotForwarded` | internal/handler/portforward.go:68-76 | a rule for the ports 80:90 is accepted and displayed, and forwards nothing |
| `CustomRules.ParseIPTablesLine` | internal/system/firewall.go:316-348 | the loop over the words is the fold over them from the left: the last occurrence of a flag wins |
| `CustomRules.BuildIPTablesCommand` | internal/system/firewall.go:350-378 | the words of the command joined by single blanks; nothing without a chain or an action |
| `CustomRuleList.ParserInvertsPrinter` | internal/system/firewall.go:316-378 | for every validated rule, parsing the printed command gives the rule back without its comment and with protocol "all" as none |
| `CustomRuleList.ValidHasValues` | internal/handler/validate.go:27-67 | every value of a validated rule is one word that cannot be mistaken for a flag |
| `CustomRuleMeaning.CommandMeaning` | internal/system/firewall.go:350-378 | what iptables reads in the printed command, and that it refuses it if and only if it names a port without the protocol tcp or udp, an input interface in OUTPUT, or an output interface in INPUT |
| `CustomRuleMeaning.CommandExact` | internal/system/firewall.go:350-378 | if it is not refused, the command appends one rule to the end of its chain, which decides for exactly the packets that the fields of the rule are about and no older rule decides for |
| `CustomRuleMeaning.PortNeedsProtocol` | internal/handler/validate.go:27-67 | a rule with a port and without a protocol is accepted and displayed, and has no effect |
| `CustomRules.CustomRulesFile.GetCustomRules` | internal/system/firewall.go:254-274 | the rules of all iptables lines that have a chain |
| `CustomRules.CustomRulesFile.AddCustomRule` | internal/system/firewall.go:276-294 | the file, started with a shebang if missing, grows by the comment and the command |
| `CustomRules.CustomRulesFile.DeleteCustomRule` | internal/system/firewall.go:296-314 | the file without the iptables line of that number; a missing file is an error |
| `CustomRuleList.DeleteByNumber` | internal/system/firewall.go:296-314 | for every number, in range or not, exactly the displayed rule of that number goes, if and only if no iptables line without a chain comes before a displayed rule |
| `CustomRuleList.DeleteKeepsLines` | internal/system/firewall.go:296-314 | in any file, every other iptables line and every other line that is not blank survives, in order |
| `CustomRuleList.RemovedLines` | internal/system/firewall.go:313 | each deletion leaves one more blank line at the end |
| `CustomRuleList.AddLists` | internal/system/firewall.go:276-294 | on a newline-terminated file, adding displays one more rule, the normalised one |
| `CustomRuleWords.ParsedGives` | internal/system/firewall.go:316-348 | each field of a line holds the word behind the last of its flags, and nothing without one |
| `CustomRuleHazards.AddExact` | internal/system/firewall.go:276-294 | for every file, the new rule is displayed behind the old ones if and only if its first line is glued to a line that allows it. Without a comment: to a blank line, or to an iptables line without a chain all of whose flags are of fields that the rule sets, a last word that does not end in white space aside. With one: to a line that is no iptables line, or to one that the comment leaves as it is, because where the comment has a flag it repeats the line, and elsewhere the hash sign does not become the value of a flag or part of one |
| `CustomRuleHazards.GluedLost` | internal/system/firewall.go:276-294 | for all validated rules a and b: b appended to a file that ends in a without a newline is not displayed, unless its comment repeats the action flag |
| `CustomRuleHazards.FlushDeleted` | internal/system/firewall.go:296-314 | in a script whose first command is `iptables -F`, deleting rule 0 deletes the flush and keeps the rule |
| `CustomRuleList.RunRefines` | internal/system/firewall.go:254-314 | any run of additions and deletions by number displays what the same operations do to a list of rules, and keeps the file newline-terminated and all its iptables lines displayed |
| `Reservations.ReservationFile.GetReservations` | internal/system/dhcp.go:70-99 | the reservations of all lines with at least two fields |
| `Reservations.ReservationFile.AddReservation` | internal/system/dhcp.go:101-112 | the file, created if missing, grows by one line |
| `Reservations.ReservationFile.DeleteReservation` | internal/system/dhcp.go:114-134 | the lines that mention the address, in any case, are gone |
| `Reservations.ReservationFile.HandleAdd` | internal/handler/dhcp.go:76-110 | the reply to every request, the first clash that refuses it, and the file after it |
| `ReservationList.AddAppends` | internal/system/dhcp.go:101-112 | on a newline-terminated file adding appends one reservation if and only if its address and IP have no comma and none of its fields a newline |
| `ReservationList.DeleteExact` | internal/system/dhcp.go:114-134 | no reservation of the address remains, whatever its case; the others are kept if and only if none of their lines mentions the address |
| `ReservationList.DeleteAfterAdd` | internal/system/dhcp.go:101-134 | adding a reservation makes no difference to a file from which its address is then deleted |
| `ReservationList.CheckIsExact` | internal/handler/dhcp.go:88-99 | the duplicate check refuses a reservation if and only if it would break uniqueness |
| `ReservationList.ClashNames` | internal/handler/dhcp.go:88-99 | a refusal names the first reservation in the way: the IP address of one for the same MAC address in any case, else the MAC address of one for the same IP address |
| `ReservationList.SubmittedSays` | internal/handler/dhcp.go:77-82 | what is submitted: the trimmed fields, with the MAC address in lower case |
| `ReservationList.LineFormat` | internal/system/dhcp.go:80-110 | the line of a reservation letter for letter, as it is written and as it is read |
| `ReservationList.OtherLines` | internal/system/dhcp.go:80-97 | lines without the prefix or the host name make a reservation too; comments and lines without a comma make none |
| `ReservationList.MentionsExact` | internal/system/dhcp.go:121-127 | the lines that a deletion takes are those in which the address occurs, letter for letter ignoring ASCII case |
| `ReservationList.RunKeepsUnique` | internal/handler/dhcp.go:76-121 | over any run of requests that read back, one after the other, with any write failing, MAC addresses stay distinct ignoring case and IP addresses stay distinct |
| `ReservationList.BlindAddExact` | internal/handler/dhcp.go:88-105 | an accepted submission keeps the addresses unique if and only if the file was read, or nothing was written, or there was no clash |
| `ReservationList.BlindAddRepeats` | internal/handler/dhcp.go:89 | in particular, with an unreadable file any reservation is repeated |
| `ReservationHazards.AnyAddExact` | internal/system/dhcp.go:101-112 | whatever is submitted, the list grows by what the written text reads as, and stays unique if and only if that clashes neither with the list nor with itself |
| `ReservationHazards.CommaSlipsPast` | internal/handler/dhcp.go:88-105 | a MAC address with a comma passes the check and makes a second reservation of the part before it |
| `ReservationHazards.InterleavedExact` | internal/handler/dhcp.go:76-121 | over any interleaving of checks, appends and deletions: at every moment the addresses are unique, those of the submissions between check and append included, if and only if no check passes while a submission that clashes is waiting |
| `ReservationHazards.CheckExact` | internal/handler/dhcp.go:88-99 | one such check keeps that property if and only if the submission clashes with none that is waiting |
| `ReservationHazards.WaitingExact` | internal/handler/dhcp.go:100-110 | the property is the right one: appending what is waiting leaves the addresses unique if and only if it holds |
| `ReservationHazards.RaceExact` | internal/handler/dhcp.go:76-110 | two requests that both pass the check before either is appended leave the addresses unique if and only if they were so and the two do not clash with each other |
| `ReservationHazards.RaceDuplicates` | internal/handler/dhcp.go:88-105 | in particular, sent twice a submission is reserved twice |
| `ReservationHazards.NeighbourDeleted` | internal/system/dhcp.go:114-134 | a reservation whose host name is the address of another device goes with that device |
| `Text.RenderScan` | internal/system/firewall.go:229-249 | scanning lines and writing them back joined gives the text back if and only if it is not empty, ends in a newline and has no carriage return before one |
| `Text.SplitJoin` | internal/system/doh.go:478-513 | splitting undoes joining if and only if no part holds the separator |
| `Text.ContainsExact` | internal/system/logs.go:227 | searching a text in lower case finds it if and only if it occurs, at some index and letter for letter ignoring ASCII case |
| `Text.TrimExact` | internal/system/dns.go:30 | trimming takes white space from both ends and leaves none there |
| `Validate.PortsExact` | internal/handler/validate.go:134-145 | of decimal numbers, exactly those from 1 to 65535 are ports, and two of them with a colon a range |

## Left out

- Letter case is folded for ASCII only, and a text has the same length in lower or upper case.
- The 64 KiB limit of a scanned line and partial writes: a write takes effect as a whole or not at all.
- `net.ParseIP`, `net.ParseCIDR` and `url.Parse` are not part of this model: addresses are texts over a
  character set that holds all they accept, and the outcome of parsing a URL is a parameter.
- `DnsmasqViews.EditRefines`: takes inputs that a line of the file can carry; `DnsmasqInputs.EditExact`
  says that for all others the edit is no update of one view.
- `DnsmasqViews.RunRefines`: takes runs of such inputs.
- `DnsmasqViews.EditRows`: takes such inputs, because others make rows of more than one kind.
- `PortForwardOwners.DeleteRemovesBlocks`: takes files whose blocks are whole, because only there the
  kept lines keep their blocks; `PortForwardExact.DeleteExact` says of every file which lines are kept.
- `CustomRuleList.AddLists`: takes files that end in a newline; `CustomRuleHazards.AddExact` takes all.
- `ReservationList.RunKeepsUnique`: takes requests whose fields can be read back and whose duplicate
  check could read the file; `ReservationHazards.AnyAddExact` and `ReservationList.BlindAddExact` say
  what happens otherwise.
- `DnsRecovery.AlwaysRecoverable`: takes safe requests, and lists of upstreams that are not empty and hold
  no stub address. For such a list `DnsRecovery.ToggleOnExact`, `DnsRecovery.ReapplyExact` and
  `DnsRecovery.SwitchOffExact` say which requests lose it once completed; for all other lists
  `DnsChoices.OnThenOffExact` and `DnsChoices.PageExact` say that even the plainest run loses them.
- `DnsRecovery.EnableKeeps`: takes such lists too, for the same reason.
- `DnsRecovery.DisableKeeps`: takes such lists too, for the same reason.
- `DnsRecovery.StepKeeps`: takes such lists too, for the same reason.
- `DnsRecovery.CarefulIsSafe`: takes such lists too, for the same reason.
- `DnsRecovery.SwitchOffRestores`: takes such lists too, for the same reason.
- `DnsRecovery.OnThenOff`: takes such lists too, for the same reason.
- `DnsRecovery.ToggleOnExact`: takes such lists too, for the same reason.
- `DnsRecovery.ReapplyExact`: takes such lists too, for the same reason.
- `DnsRecovery.SwitchOffExact`: takes such lists too, for the same reason.
- `DnsRecovery.PageWhileEncrypted`: takes such lists; `DnsChoices.PageExact` takes all that a file can hold.
- Requests do not overlap, but for the additions and deletions of reservations in
  `ReservationHazards.InterleavedExact`, the edits in `DnsmasqInputs.StaleWrite`, the broadcaster and
  the reboot protocol.
- `DnsLines.LogCounts`: takes queries, hits and forwards with a quiet prefix and without misread domains,
  and other lines that hold none of the three texts; `DnsReplies.AnswerSays` says which replies do.
- `BandwidthKernel.RatesAsWanted`: other POSTROUTING rules are taken neither to set marks nor to end the
  traversal, and MAC addresses and class ids are compared as the comment of the compiler intends
  (`--mac-destination` matches the device; an id is the same class wherever it is written).
- `RebootSchedule.NextOccurrence`: a fixed UTC offset, without daylight-saving changes.
- `RebootSchedule.NoLostWakeUp`: no database error in the watch loop.
- The templates of the stub configurations, starting and stopping the stubs, and which provider is
  chosen; whether a stub is installed does not change during one call.
- The text of the shell commands of the bandwidth script: they are values with a semantics.
- What iptables does is modelled for the options that the two firewall scripts use, as iptables(8) and
  iptables-extensions(8) describe them; other options, user-defined chains, the length limit of a log
  prefix and connection tracking beyond the state NEW are not part of it. Which addresses belong to a
  network is a parameter, and ports are read as decimal numbers with an optional sign.
- The sorting library: `DnsStats.SortByCount` and `BandwidthLimits.SortKeys` stand in for it on values.
- Counters are unbounded, and the hit rate is a real number without rounding.
- The structured firewall-log parser, leases, the dashboard and bandwidth broadcasters, the listing of
  kernel rules, raw script editing, sessions, templates and HTTP, which would add only easy members.
