/** What the reservations file keeps over any run of requests: no MAC address, in any case, and no IP
    address is reserved twice. */
module ReservationList {
  import opened Seqs
  import opened Text
  import opened Options
  import opened Reservations

  // ----- lines

  predicate NoComma(s: string) {
    ',' !in s
  }

  /** Exactly the reservations that can be read back. */
  predicate Readable(r: Reservation) {
    NoComma(r.mac) && NoComma(r.ip) && OneLine(r.mac) && OneLine(r.ip) && OneLine(r.hostname)
  }

  lemma SplitNTwo(mac: string, ip: string, hostname: string)
    requires NoComma(mac) && NoComma(ip)
    ensures SplitN(mac + "," + (ip + "," + hostname), ',', 3) == [mac, ip, hostname]
  {
    var rest := ip + "," + hostname;
    var s := mac + "," + rest;
    CutAtFirst(mac, ',', rest);
    CutAtFirst(ip, ',', hostname);
    assert s[..|mac|] == mac && s[|mac| + 1..] == rest;
    assert rest[..|ip|] == ip && rest[|ip| + 1..] == hostname;
  }

  lemma LineSays(r: Reservation)
    requires Trim(r.hostname) == r.hostname
    ensures Trim(LineOf(r)) == LineOf(r)
    ensures Readable(r) ==> ReservationOf(LineOf(r)) == [r]
    ensures Readable(r) ==> OneLine(LineOf(r)) && ScanLines(LineOf(r) + "\n") == [LineOf(r)]
  {
    hide SplitN, Trim, ScanLines;
    LineTrimmed(r);
    if Readable(r) {
      LineReads(r);
      LineScans(r);
    }
  }

  lemma LineTrimmed(r: Reservation)
    requires Trim(r.hostname) == r.hostname
    ensures Trim(LineOf(r)) == LineOf(r) && Trimmed(LineOf(r))
  {
    hide Trim;
    TrimIsTrimmed(r.hostname);
    var l := LineOf(r);
    assert l[0] == 'd';
    assert l[|l| - 1] == if r.hostname == "" then ',' else r.hostname[|r.hostname| - 1];
    TrimmedStays(l);
  }

  lemma LineReads(r: Reservation)
    requires Readable(r) && Trim(LineOf(r)) == LineOf(r)
    ensures ReservationOf(LineOf(r)) == [r]
  {
    hide SplitN, Trim;
    var l := LineOf(r);
    assert l[0] == 'd';
    assert l[|HOST|..] == r.mac + "," + (r.ip + "," + r.hostname);
    SplitNTwo(r.mac, r.ip, r.hostname);
  }

  lemma LineScans(r: Reservation)
    requires Readable(r) && Trimmed(LineOf(r))
    ensures OneLine(LineOf(r)) && ScanLines(LineOf(r) + "\n") == [LineOf(r)]
  {
    hide ScanLines;
    ScanCons(LineOf(r), "");
    assert LineOf(r) + "\n" + "" == LineOf(r) + "\n";
    ScanNothing();
  }

  lemma {:induction false} SplitNFrom(s: string, n: nat)
    requires n > 0
    ensures forall i | 0 <= i < |SplitN(s, ',', n)| - 1 :: NoComma(SplitN(s, ',', n)[i])
    ensures forall p <- SplitN(s, ',', n) :: forall c <- p :: c in s
    ensures |SplitN(s, ',', n)| < n ==> forall p <- SplitN(s, ',', n) :: NoComma(p)
    decreases n
  {
    var i := CutAt(s, ',');
    assert s[..|s|] == s;
    if n > 1 && i < |s| {
      SplitNFrom(s[i + 1..], n - 1);
    }
  }

  /** What a line makes comes out of the line. */
  lemma ReservationFrom(line: string)
    ensures |ReservationOf(line)| <= 1
    ensures ReservationOf(line) != [] ==> NoComma(ReservationOf(line)[0].mac) && NoComma(ReservationOf(line)[0].ip)
    ensures ReservationOf(line) != [] && OneLine(line) ==> Readable(ReservationOf(line)[0])
  {
    hide SplitN, Trim;
    if ReservationOf(line) != [] {
      var u := TrimPrefix(Trim(line), HOST);
      SplitNFrom(u, 3);
      TrimWithin(line);
      var parts := SplitN(u, ',', 3);
      assert forall c <- u :: c in Trim(line);
      assert parts[0] in parts && parts[1] in parts && parts[|parts| - 1] in parts;
    }
  }

  /** Adding appends one reservation, exactly when its fields can be read back. */
  lemma AddAppends(content: string, r: Reservation)
    requires Terminated(content) && Trim(r.hostname) == r.hostname
    ensures Listed(Added(content, r)) == Listed(content) + [r] <==> Readable(r)
  {
    hide ScanLines, ReservationOf, Trim, Readable;
    var text := Added(content, r);
    if Readable(r) {
      LineSays(r);
      ScanAppend(content, LineOf(r) + "\n");
      assert text == content + (LineOf(r) + "\n");
      FlatMapConcat(ReservationOf, ScanLines(content), [LineOf(r)]);
      assert FlatMap(ReservationOf, [LineOf(r)]) == [r] by {
        assert [LineOf(r)][..0] == [] && [] + [r] == [r];
      }
    } else {
      ListedReadable(text);
      assert Listed(text) == Listed(content) + [r] ==> r in Listed(text);
    }
  }

  /** Every reservation in a file can be read back. */
  lemma ListedReadable(content: string)
    ensures forall r <- Listed(content) :: Readable(r)
  {
    hide ScanLines, ReservationOf, Readable;
    ScanOneLiners(content);
    FlatMapFrom(ReservationOf, ScanLines(content));
    forall r <- Listed(content) ensures Readable(r) {
      var l :| l in ScanLines(content) && r in ReservationOf(l);
      ReservationFrom(l);
    }
  }

  // ----- deleting

  /** Where a trimmed text lies in the original one. */
  lemma {:induction false} TrimLeftPart(s: string) returns (i: nat)
    ensures i + |TrimLeft(s)| == |s| && s[i..] == TrimLeft(s)
  {
    i := 0;
    if s != "" && IsSpace(s[0]) {
      i := TrimLeftPart(s[1..]);
      i := i + 1;
    }
  }

  lemma {:induction false} TrimRightPart(s: string)
    ensures TrimRight(s) <= s
  {
    if s != "" && IsSpace(s[|s| - 1]) {
      TrimRightPart(s[..|s| - 1]);
    }
  }

  /** A line mentions the address of the reservation it makes. */
  lemma MentionsOwn(line: string, mac: string)
    ensures ReservationOf(line) != [] && EqualFold(ReservationOf(line)[0].mac, mac) ==> Mentions(line, mac)
  {
    hide Trim, Index;
    if ReservationOf(line) != [] && EqualFold(ReservationOf(line)[0].mac, mac) {
      var i := OwnPart(line);
      var own := ReservationOf(line)[0].mac;
      assert ToLower(line)[i..i + |own|] == ToLower(own);
      assert |ToLower(mac)| == |own|;
      IndexIsFirst(ToLower(line), ToLower(mac), i);
    }
  }

  lemma OwnPart(line: string) returns (i: nat)
    requires ReservationOf(line) != []
    ensures i + |ReservationOf(line)[0].mac| <= |line|
    ensures line[i..i + |ReservationOf(line)[0].mac|] == ReservationOf(line)[0].mac
  {
    hide SplitN, TrimLeft, TrimRight;
    var j := TrimLeftPart(TrimRight(line));
    TrimRightPart(line);
    var t := Trim(line);
    var u := TrimPrefix(t, HOST);
    var mac := SplitN(u, ',', 3)[0];
    SplitNFirst(u);
    i := j + |t| - |u|;
  }

  lemma SplitNFirst(s: string)
    ensures SplitN(s, ',', 3)[0] <= s
  {
  }

  /** Whether a reservation of a line is for another address. */
  predicate OtherMAC(mac: string, r: Reservation) {
    !EqualFold(r.mac, mac)
  }

  /** The line makes a reservation for another address and yet mentions this one. */
  predicate Collateral(line: string, mac: string) {
    ReservationOf(line) != [] && OtherMAC(mac, ReservationOf(line)[0]) && Mentions(line, mac)
  }

  function Left(lines: seq<string>, mac: string): seq<Reservation> {
    FlatMap(ReservationOf, Filter(line => !Mentions(line, mac), lines))
  }

  /** The reservations for other addresses. */
  function Others(rs: seq<Reservation>, mac: string): seq<Reservation> {
    Filter(r => OtherMAC(mac, r), rs)
  }

  /** What one more line adds to the two lists. */
  function LeftBy(line: string, mac: string): seq<Reservation> {
    if Mentions(line, mac) then [] else ReservationOf(line)
  }

  function OthersBy(line: string, mac: string): seq<Reservation> {
    Others(ReservationOf(line), mac)
  }

  lemma LeftSnoc(init: seq<string>, last: string, mac: string)
    ensures Left(init + [last], mac) == Left(init, mac) + LeftBy(last, mac)
  {
    hide ReservationOf, Mentions;
    var keep := (line: string) => !Mentions(line, mac);
    FilterAppend(keep, init, last);
    FlatMapAppend(ReservationOf, Filter(keep, init), last);
    assert Left(init, mac) + [] == Left(init, mac);
  }

  lemma OthersSnoc(init: seq<string>, last: string, mac: string)
    ensures Others(FlatMap(ReservationOf, init + [last]), mac)
         == Others(FlatMap(ReservationOf, init), mac) + OthersBy(last, mac)
  {
    hide ReservationOf, OtherMAC;
    FlatMapAppend(ReservationOf, init, last);
    FilterConcat((r: Reservation) => OtherMAC(mac, r), FlatMap(ReservationOf, init), ReservationOf(last));
  }

  lemma LineChoices(line: string, mac: string)
    ensures if Collateral(line, mac) then LeftBy(line, mac) == [] && |OthersBy(line, mac)| == 1
            else LeftBy(line, mac) == OthersBy(line, mac)
  {
    hide ReservationOf, OtherMAC, Mentions;
    ReservationFrom(line);
    MentionsOwn(line, mac);
    if ReservationOf(line) != [] {
      assert ReservationOf(line) == [ReservationOf(line)[0]];
      OtherIsNotEqual(ReservationOf(line)[0], mac);
    }
  }

  lemma OtherIsNotEqual(r: Reservation, mac: string)
    ensures OtherMAC(mac, r) == !EqualFold(r.mac, mac)
  {
  }

  /** The reservations after a deletion, against those for other addresses. */
  lemma {:induction false} DeleteLines(lines: seq<string>, mac: string)
    ensures |Left(lines, mac)| <= |Others(FlatMap(ReservationOf, lines), mac)|
    ensures Left(lines, mac) == Others(FlatMap(ReservationOf, lines), mac) <==> NoCollateral(lines, mac)
    ensures !NoCollateral(lines, mac) ==> |Left(lines, mac)| < |Others(FlatMap(ReservationOf, lines), mac)|
  {
    hide ReservationOf, Collateral, NoCollateral, Left, Others, LeftBy, OthersBy, FlatMap;
    if lines == [] {
      NothingListed(mac);
    } else {
      var init, last := lines[..|lines| - 1], lines[|lines| - 1];
      assert lines == init + [last];
      DeleteLines(init, mac);
      LeftSnoc(init, last, mac);
      OthersSnoc(init, last, mac);
      LineChoices(last, mac);
      NoCollateralSnoc(init, last, mac);
    }
  }

  lemma NothingListed(mac: string)
    ensures Left([], mac) == [] && Others(FlatMap(ReservationOf, []), mac) == [] && NoCollateral([], mac)
  {
  }

  predicate NoCollateral(lines: seq<string>, mac: string) {
    forall i | 0 <= i < |lines| :: !Collateral(lines[i], mac)
  }

  lemma NoCollateralSnoc(init: seq<string>, last: string, mac: string)
    ensures NoCollateral(init + [last], mac) <==> NoCollateral(init, mac) && !Collateral(last, mac)
  {
    hide Collateral;
    var all := init + [last];
    assert all[|init|] == last;
    assert forall i | 0 <= i < |init| :: all[i] == init[i];
  }

  /** Rendering and scanning again does not change the reservations. */
  lemma ListedRender(lines: seq<string>)
    requires OneLiners(lines)
    ensures Listed(Render(lines)) == FlatMap(ReservationOf, lines)
  {
    hide ReservationOf;
    if lines == [] {
      ScanCons("", "");
      EmptyLine();
      assert Render(lines) == "" + "\n" + "" && [""][..0] == [];
    } else {
      ScanRender(lines);
      forall l <- lines ensures ReservationOf(DropCR(l)) == ReservationOf(l) {
        DropCRSays(l);
      }
      FlatMapMap(ReservationOf, DropCR, lines);
    }
  }

  lemma EmptyLine()
    ensures ReservationOf("") == []
  {
  }

  lemma DropCRSays(line: string)
    ensures ReservationOf(DropCR(line)) == ReservationOf(line)
  {
    hide SplitN;
    TrimStripCR(line);
    TrimStripCR(DropCR(line));
  }

  /** A deletion never leaves a reservation of the address, whatever its case. It removes only those
      reservations exactly when no line that makes another reservation mentions the address. */
  lemma DeleteExact(content: string, mac: string)
    ensures Listed(Without(content, mac)) == Left(ScanLines(content), mac)
    ensures forall r <- Listed(Without(content, mac)) :: OtherMAC(mac, r)
    ensures Listed(Without(content, mac)) == Others(Listed(content), mac) <==> NoCollateral(ScanLines(content), mac)
  {
    hide ReservationOf, ScanLines, Mentions, NoCollateral, Render, OtherMAC;
    var kept := Filter(line => !Mentions(line, mac), ScanLines(content));
    ScanOneLiners(content);
    ListedRender(kept);
    DeleteLines(ScanLines(content), mac);
    FlatMapFrom(ReservationOf, kept);
    forall r <- Listed(Without(content, mac)) ensures OtherMAC(mac, r) {
      var l :| l in kept && r in ReservationOf(l);
      ReservationFrom(l);
      MentionsOwn(l, mac);
      OtherIsNotEqual(r, mac);
    }
  }

  /** Adding a reservation makes no difference to a file from which its address is then deleted. */
  lemma DeleteAfterAdd(content: string, r: Reservation)
    requires Terminated(content) && Trim(r.hostname) == r.hostname && Readable(r)
    ensures Without(Added(content, r), r.mac) == Without(content, r.mac)
  {
    hide ReservationOf, ScanLines, Mentions, Render, Trim;
    LineSays(r);
    MentionsOwn(LineOf(r), r.mac);
    ScanAppend(content, LineOf(r) + "\n");
    assert Added(content, r) == content + (LineOf(r) + "\n");
    FilterAppend(line => !Mentions(line, r.mac), ScanLines(content), LineOf(r));
  }

  // ----- nothing is reserved twice

  predicate Apart(a: Reservation, b: Reservation) {
    !EqualFold(a.mac, b.mac) && a.ip != b.ip
  }

  /** No MAC address, whatever its case, and no IP address occurs twice. */
  predicate Unique(rs: seq<Reservation>) {
    forall i, j | 0 <= i < j < |rs| :: Apart(rs[i], rs[j])
  }

  predicate InTheWay(e: Reservation, r: Reservation) {
    SameLetters(e.mac, r.mac) || e.ip == r.ip
  }

  /** A refusal names the first reservation in the way: the IP address of one for the same MAC address,
      whatever its case, and else the MAC address of one for the same IP address. */
  lemma {:induction false} ClashNames(existing: seq<Reservation>, r: Reservation)
    ensures Clash(existing, r) == None <==> forall e <- existing :: !InTheWay(e, r)
    ensures forall i | 0 <= i < |existing| && InTheWay(existing[i], r)
                       && (forall j | 0 <= j < i :: !InTheWay(existing[j], r)) ::
              Clash(existing, r) == Some(if SameLetters(existing[i].mac, r.mac)
                                         then MACTaken(existing[i].ip) else IPTaken(existing[i].mac))
  {
    hide ToLower, SameLetters;
    if existing != [] {
      LowerLetters(existing[0].mac, r.mac);
      var e, rest := existing[0], existing[1..];
      ClashNames(rest, r);
      assert existing == [e] + rest;
      if !InTheWay(e, r) {
        forall i | 0 <= i < |existing| && InTheWay(existing[i], r)
                   && forall j | 0 <= j < i :: !InTheWay(existing[j], r)
          ensures Clash(existing, r) == Some(if SameLetters(existing[i].mac, r.mac)
                                             then MACTaken(existing[i].ip) else IPTaken(existing[i].mac))
        {
          assert existing[i] == rest[i - 1];
          assert forall j | 0 <= j < i - 1 :: rest[j] == existing[j + 1];
        }
      }
    }
  }

  /** What is submitted: the trimmed fields, with the MAC address in lower case. */
  lemma SubmittedSays(mac: string, ip: string, hostname: string)
    ensures var r := Submitted(mac, ip, hostname);
            && SameLetters(r.mac, Trim(mac)) && (forall c <- r.mac :: !('A' <= c <= 'Z'))
            && r.ip == Trim(ip) && r.hostname == Trim(hostname)
  {
    hide Trim;
    var r := Submitted(mac, ip, hostname);
    assert forall k | 0 <= k < |r.mac| :: r.mac[k] == LowerChar(Trim(mac)[k]);
  }

  /** The lines that a deletion takes. */
  lemma MentionsExact(line: string, mac: string)
    ensures Mentions(line, mac) <==> Occurs(line, mac)
  {
    ContainsExact(line, mac);
  }

  /** Lines that the page does not write: without the prefix, without a host name, and a comment. */
  lemma OtherLines(mac: string, ip: string, hostname: string, text: string)
    requires NoComma(mac) && NoComma(ip) && mac != "" && mac[0] != '#' && !(HOST <= mac)
    requires Trimmed(mac + "," + ip) && Trimmed(mac + "," + (ip + "," + hostname))
    ensures ReservationOf(mac + "," + ip) == [Reservation(mac, ip, "")]
    ensures ReservationOf(mac + "," + (ip + "," + hostname)) == [Reservation(mac, ip, hostname)]
    ensures ReservationOf("#" + text) == []
    ensures NoComma(text) ==> ReservationOf(text) == []
  {
    hide Trim, SplitN;
    NoPrefix(mac, ip);
    NoPrefix(mac, ip + "," + hostname);
    TrimmedStays(mac + "," + ip);
    TrimmedStays(mac + "," + (ip + "," + hostname));
    SplitNTwo(mac, ip, hostname);
    SplitNOne(mac, ip);
    HashLine(text);
    if NoComma(text) {
      NoCommaLine(text);
    }
  }

  lemma NoPrefix(mac: string, rest: string)
    requires NoComma(mac) && !(HOST <= mac)
    ensures TrimPrefix(mac + "," + rest, HOST) == mac + "," + rest
  {
    var s := mac + "," + rest;
    if |mac| < |HOST| {
      assert s[|mac|] == ',' && HOST[|mac|] != ',';
    } else {
      assert s[..|HOST|] == mac[..|HOST|];
    }
  }

  lemma SplitNOne(mac: string, ip: string)
    requires NoComma(mac) && NoComma(ip)
    ensures SplitN(mac + "," + ip, ',', 3) == [mac, ip]
  {
    var s := mac + "," + ip;
    CutAtFirst(mac, ',', ip);
    assert s[..|mac|] == mac && s[|mac| + 1..] == ip;
    assert ip[..|ip|] == ip;
  }

  lemma {:induction false} HashStays(s: string)
    requires s != "" && s[0] == '#'
    ensures TrimRight(s) != "" && TrimRight(s)[0] == '#'
  {
    if IsSpace(s[|s| - 1]) {
      HashStays(s[..|s| - 1]);
    }
  }

  lemma HashLine(text: string)
    ensures ReservationOf("#" + text) == []
  {
    HashStays("#" + text);
  }

  lemma NoCommaLine(text: string)
    requires NoComma(text)
    ensures ReservationOf(text) == []
  {
    hide Trim;
    TrimWithin(text);
    var t := Trim(text);
    var u := TrimPrefix(t, HOST);
    assert NoComma(u);
    assert CutAt(u, ',') == |u|;
  }

  /** The line as dnsmasq reads it. */
  lemma LineFormat(mac: string, ip: string, hostname: string)
    requires Readable(Reservation(mac, ip, hostname)) && Trim(hostname) == hostname
    ensures ReservationOf("dhcp-host=" + mac + "," + ip + "," + hostname) == [Reservation(mac, ip, hostname)]
    ensures LineOf(Reservation(mac, ip, hostname)) == "dhcp-host=" + mac + "," + ip + "," + hostname
  {
    hide ReservationOf, Trim;
    var r := Reservation(mac, ip, hostname);
    LineSays(r);
    assert "dhcp-host=" + mac + "," + ip + "," + hostname == "dhcp-host=" + (mac + "," + (ip + "," + hostname));
    assert LineOf(r) == "dhcp-host=" + mac + "," + ip + "," + hostname;
  }

  lemma {:induction false} ClashFinds(existing: seq<Reservation>, r: Reservation)
    ensures Clash(existing, r) == None <==> forall i | 0 <= i < |existing| :: Apart(existing[i], r)
  {
    if existing != [] {
      var e, rest := existing[0], existing[1..];
      ClashFinds(rest, r);
      if Apart(e, r) && forall i | 0 <= i < |rest| :: Apart(rest[i], r) {
        forall i | 0 <= i < |existing| ensures Apart(existing[i], r) {
          assert i > 0 ==> existing[i] == rest[i - 1];
        }
      } else if Apart(e, r) {
        var i :| 0 <= i < |rest| && !Apart(rest[i], r);
        assert existing[i + 1] == rest[i];
      }
    }
  }

  lemma UniqueSnoc(rs: seq<Reservation>, r: Reservation)
    ensures Unique(rs + [r]) <==> Unique(rs) && forall i | 0 <= i < |rs| :: Apart(rs[i], r)
  {
    hide Apart;
    var all := rs + [r];
    assert all[|rs|] == r;
    assert forall i | 0 <= i < |rs| :: all[i] == rs[i];
  }

  /** What the handler's duplicate check is for: an accepted reservation keeps the list unique, a
      rejected one would have broken it. */
  lemma CheckIsExact(existing: seq<Reservation>, r: Reservation)
    requires Unique(existing)
    ensures Clash(existing, r) == None <==> Unique(existing + [r])
  {
    hide Unique, Apart;
    ClashFinds(existing, r);
    UniqueSnoc(existing, r);
  }

  /** Keeping only some of the lines keeps the list unique. */
  lemma {:induction false} UniqueLeft(lines: seq<string>, mac: string)
    requires Unique(FlatMap(ReservationOf, lines))
    ensures Unique(Left(lines, mac))
    ensures forall r <- Left(lines, mac) :: r in FlatMap(ReservationOf, lines)
  {
    hide ReservationOf, Unique, Left, LeftBy, FlatMap;
    if lines == [] {
      NothingUnique(mac);
    } else {
      var init, last := lines[..|lines| - 1], lines[|lines| - 1];
      assert lines == init + [last];
      FlatMapAppend(ReservationOf, init, last);
      UniqueInit(init, last);
      UniqueLeft(init, mac);
      LeftSnoc(init, last, mac);
      LeftByOne(last, mac);
      ReservationFrom(last);
      UniqueLeftStep(FlatMap(ReservationOf, init), Left(init, mac), ReservationOf(last));
      assert Left(init, mac) + [] == Left(init, mac);
    }
  }

  lemma NothingUnique(mac: string)
    ensures Unique(Left([], mac)) && Left([], mac) == []
  {
  }

  lemma LeftByOne(line: string, mac: string)
    ensures LeftBy(line, mac) == [] || LeftBy(line, mac) == ReservationOf(line)
  {
  }

  lemma UniqueInit(init: seq<string>, last: string)
    requires Unique(FlatMap(ReservationOf, init) + ReservationOf(last))
    ensures Unique(FlatMap(ReservationOf, init))
  {
    hide ReservationOf, Apart, FlatMap;
    var a, b := FlatMap(ReservationOf, init), ReservationOf(last);
    forall i, j | 0 <= i < j < |a| ensures Apart(a[i], a[j]) {
      assert (a + b)[i] == a[i] && (a + b)[j] == a[j];
    }
  }

  lemma UniqueLeftStep(all: seq<Reservation>, left: seq<Reservation>, more: seq<Reservation>)
    requires Unique(all + more) && Unique(left) && |more| <= 1 && forall r <- left :: r in all
    ensures Unique(left + more)
    ensures forall r <- left + more :: r in all + more
    ensures forall r <- left :: r in all + more
  {
    hide Apart, Unique;
    if more == [] {
      assert left + more == left;
    } else {
      assert more == [more[0]];
      UniqueSnoc(all, more[0]);
      UniqueSnoc(left, more[0]);
      forall i | 0 <= i < |left| ensures Apart(left[i], more[0]) {
        assert left[i] in all;
        var k :| 0 <= k < |all| && all[k] == left[i];
        assert Apart(all[k], more[0]);
      }
    }
  }

  // ----- whole runs

  datatype Request = Add(mac: string, ip: string, hostname: string, io: IO) | Delete(mac: string, io: IO)

  /** The file after a request. */
  function After(file: Option<string>, q: Request): Option<string> {
    match q
    case Add(mac, ip, hostname, io) =>
      var r := Submitted(mac, ip, hostname);
      var existing := if file.Some? && io.readOk then Listed(file.value) else [];
      if r.mac == "" || r.ip == "" || Clash(existing, r).Some? || !io.openOk then file
      else if io.writeOk then Some(Added(TextOf(file), r))
      else Some(TextOf(file))
    case Delete(mac, io) =>
      if file.Some? && io.readOk && io.writeOk then Some(Without(file.value, mac)) else file
  }

  /** An added reservation can be read back, and the file could be read for the duplicate check. */
  predicate Allowed(q: Request) {
    q.Add? ==> Readable(Submitted(q.mac, q.ip, q.hostname)) && q.io.readOk
  }

  predicate Good(file: Option<string>) {
    Terminated(TextOf(file)) && Unique(Listed(TextOf(file)))
  }

  lemma AddKeepsGood(file: Option<string>, q: Request)
    requires Good(file) && q.Add? && Allowed(q)
    ensures Good(After(file, q))
  {
    hide Unique, Readable, Listed, Trim, Clash;
    var r := Submitted(q.mac, q.ip, q.hostname);
    var text := TextOf(file);
    ListedNothing();
    var grown := Added(text, r);
    assert grown[|grown| - 1] == '\n';
    TrimTwice(q.hostname);
    AddAppends(text, r);
    CheckIsExact(Listed(text), r);
  }

  lemma TrimTwice(s: string)
    ensures Trim(Trim(s)) == Trim(s)
  {
    TrimIsTrimmed(s);
    TrimmedStays(Trim(s));
  }

  lemma ListedNothing()
    ensures Listed("") == []
  {
  }

  lemma DeleteKeepsGood(file: Option<string>, q: Request)
    requires Good(file) && q.Delete?
    ensures Good(After(file, q))
  {
    hide Unique, Listed, Join, ScanLines, Left;
    if file.Some? {
      var w := Without(file.value, q.mac);
      assert w[|w| - 1] == '\n';
      DeleteExact(file.value, q.mac);
      ListedIsFlat(file.value);
      UniqueLeft(ScanLines(file.value), q.mac);
    }
  }

  lemma ListedIsFlat(content: string)
    ensures Listed(content) == FlatMap(ReservationOf, ScanLines(content))
  {
  }

  function Run(file: Option<string>, qs: seq<Request>): Option<string> {
    if qs == [] then file else After(Run(file, qs[..|qs| - 1]), qs[|qs| - 1])
  }

  /** No run of requests, with any of their writes failing, ever reserves an address twice. */
  lemma {:induction false} RunKeepsUnique(file: Option<string>, qs: seq<Request>)
    requires Good(file) && forall q <- qs :: Allowed(q)
    ensures Good(Run(file, qs))
  {
    hide Good, Allowed, After;
    if qs != [] {
      var init, last := qs[..|qs| - 1], qs[|qs| - 1];
      RunKeepsUnique(file, init);
      if last.Add? {
        AddKeepsGood(Run(file, init), last);
      } else {
        DeleteKeepsGood(Run(file, init), last);
      }
    }
  }

  /** The handler ignores an error of the read behind the duplicate check. The addresses stay unique
      exactly when the file was read, nothing was written, or there was no clash to find. */
  lemma BlindAddExact(file: Option<string>, q: Request)
    requires Good(file) && q.Add? && Readable(Submitted(q.mac, q.ip, q.hostname))
    requires Submitted(q.mac, q.ip, q.hostname).mac != "" && Submitted(q.mac, q.ip, q.hostname).ip != ""
    ensures Unique(Listed(TextOf(After(file, q))))
       <==> q.io.readOk || !q.io.openOk || !q.io.writeOk
            || Clash(Listed(TextOf(file)), Submitted(q.mac, q.ip, q.hostname)) == None
  {
    hide Unique, Readable, Listed, Trim, Clash, Added;
    var r := Submitted(q.mac, q.ip, q.hostname);
    var text := TextOf(file);
    if q.io.readOk {
      AddKeepsGood(file, q);
    } else {
      TrimTwice(q.hostname);
      AddAppends(text, r);
      CheckIsExact(Listed(text), r);
      ClashNothing(r);
    }
  }

  /** For instance, it then repeats any reservation. */
  lemma BlindAddRepeats(file: Option<string>, q: Request)
    requires Good(file) && q.Add? && !q.io.readOk && q.io.openOk && q.io.writeOk
    requires Submitted(q.mac, q.ip, q.hostname) in Listed(TextOf(file))
    requires Submitted(q.mac, q.ip, q.hostname).mac != "" && Submitted(q.mac, q.ip, q.hostname).ip != ""
    ensures !Unique(Listed(TextOf(After(file, q))))
  {
    hide Unique, Readable, Listed, Trim, Clash, After, Apart;
    var r := Submitted(q.mac, q.ip, q.hostname);
    ListedReadable(TextOf(file));
    BlindAddExact(file, q);
    ClashFinds(Listed(TextOf(file)), r);
    var i :| 0 <= i < |Listed(TextOf(file))| && Listed(TextOf(file))[i] == r;
    assert !Apart(r, r) by {
      SelfNotApart(r);
    }
  }

  lemma SelfNotApart(r: Reservation)
    ensures !Apart(r, r)
  {
  }

  lemma ClashNothing(r: Reservation)
    ensures Clash([], r) == None
  {
  }
}
