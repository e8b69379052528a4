/** The DHCP reservations file (internal/system/dhcp.go) and the requests that add and delete
    reservations (internal/handler/dhcp.go). */
module Reservations {
  import opened Seqs
  import opened Text
  import opened Options

  datatype Reservation = Reservation(mac: string, ip: string, hostname: string)

  const HOST := "dhcp-host="

  function TrimPrefix(s: string, prefix: string): string {
    if prefix <= s then s[|prefix|..] else s
  }

  predicate EqualFold(a: string, b: string) {
    ToLower(a) == ToLower(b)
  }

  // ----- lines

  /** The reservation that a line makes, if any. */
  function ReservationOf(line: string): seq<Reservation> {
    var t := Trim(line);
    if t == "" || t[0] == '#' then []
    else
      var parts := SplitN(TrimPrefix(t, HOST), ',', 3);
      if |parts| < 2 then []
      else [Reservation(parts[0], parts[1], if |parts| == 3 then parts[2] else "")]
  }

  function LineOf(r: Reservation): string {
    HOST + (r.mac + "," + (r.ip + "," + r.hostname))
  }

  predicate Mentions(line: string, mac: string) {
    Contains(ToLower(line), ToLower(mac))
  }

  // ----- the file

  function Listed(content: string): seq<Reservation> {
    FlatMap(ReservationOf, ScanLines(content))
  }

  function Added(content: string, r: Reservation): string {
    content + LineOf(r) + "\n"
  }

  function Without(content: string, mac: string): string {
    Render(Filter(line => !Mentions(line, mac), ScanLines(content)))
  }

  // ----- requests

  /** The answer to a request to add a reservation. */
  datatype Reply = Required | MACTaken(ip: string) | IPTaken(mac: string) | Failed | Reserved(r: Reservation)

  /** The first existing reservation that stands in the way of a new one. */
  function Clash(existing: seq<Reservation>, r: Reservation): Option<Reply> {
    if existing == [] then None
    else
      var e := existing[0];
      if EqualFold(e.mac, r.mac) then Some(MACTaken(e.ip))
      else if e.ip == r.ip then Some(IPTaken(e.mac))
      else Clash(existing[1..], r)
  }

  /** The reservation that the fields of the form describe. */
  function Submitted(mac: string, ip: string, hostname: string): Reservation {
    Reservation(ToLower(Trim(mac)), Trim(ip), Trim(hostname))
  }

  datatype IO = IO(readOk: bool, openOk: bool, writeOk: bool)

  class ReservationFile {
    var file: Option<string>

    constructor ()
      ensures file == None
    {
      file := None;
    }

    method GetReservations(io: IO) returns (r: Option<seq<Reservation>>)
      ensures r == if file.None? then Some([]) else if io.readOk then Some(Listed(file.value)) else None
    {
      hide Trim, SplitN, ScanLines;
      if file.None? {
        return Some([]);
      }
      if !io.readOk {
        return None;
      }
      var lines := ScanLines(file.value);
      var reservations := [];
      for i := 0 to |lines|
        invariant reservations == FlatMap(ReservationOf, lines[..i])
      {
        assert lines[..i + 1][..i] == lines[..i];
        assert reservations + [] == reservations;
        var line := Trim(lines[i]);
        if line == "" || "#" <= line {
          continue;
        }
        line := TrimPrefix(line, HOST);
        var parts := SplitN(line, ',', 3);
        if |parts| < 2 {
          continue;
        }
        var r := Reservation(parts[0], parts[1], "");
        if |parts| == 3 {
          r := r.(hostname := parts[2]);
        }
        reservations := reservations + [r];
      }
      assert lines[..|lines|] == lines;
      return Some(reservations);
    }

    method AddReservation(r: Reservation, io: IO) returns (ok: bool)
      modifies this
      ensures ok == (io.openOk && io.writeOk)
      ensures ok ==> file == Some(Added(TextOf(old(file)), r))
      ensures io.openOk && !ok ==> file == Some(TextOf(old(file)))
      ensures !io.openOk ==> file == old(file)
    {
      if !io.openOk {
        return false;
      }
      if file.None? {
        file := Some("");
      }
      if !io.writeOk {
        return false;
      }
      file := Some(file.value + LineOf(r) + "\n");
      return true;
    }

    method DeleteReservation(mac: string, io: IO) returns (ok: bool)
      modifies this
      ensures ok == (old(file).None? || (io.readOk && io.writeOk))
      ensures file == if ok && old(file).Some? then Some(Without(old(file).value, mac)) else old(file)
    {
      if file.None? {
        return true;
      }
      if !io.readOk {
        return false;
      }
      var scanned := ScanLines(file.value);
      var lines := [];
      for i := 0 to |scanned|
        invariant file == old(file)
        invariant lines == Filter(line => !Mentions(line, mac), scanned[..i])
      {
        assert scanned[..i + 1] == scanned[..i] + [scanned[i]];
        FilterAppend(line => !Mentions(line, mac), scanned[..i], scanned[i]);
        if !Contains(ToLower(scanned[i]), ToLower(mac)) {
          lines := lines + [scanned[i]];
        }
      }
      assert scanned[..|scanned|] == scanned;
      if !io.writeOk {
        return false;
      }
      file := Some(Join(lines) + "\n");
      return true;
    }

    /** The handler: an unreadable file counts as one without reservations. */
    method HandleAdd(mac: string, ip: string, hostname: string, io: IO) returns (reply: Reply)
      modifies this
      ensures var r := Submitted(mac, ip, hostname);
              var existing := if old(file).Some? && io.readOk then Listed(old(file).value) else [];
              reply ==
              (if r.mac == "" || r.ip == "" then Required
               else if Clash(existing, r).Some? then Clash(existing, r).value
               else if io.openOk && io.writeOk then Reserved(r) else Failed)
      ensures reply.Reserved? ==> file == Some(Added(TextOf(old(file)), reply.r))
      ensures !reply.Reserved? ==>
                file == if reply == Failed && io.openOk then Some(TextOf(old(file))) else old(file)
    {
      var r := Reservation(ToLower(Trim(mac)), Trim(ip), Trim(hostname));
      if r.mac == "" || r.ip == "" {
        return Required;
      }
      var got := GetReservations(io);
      var existing := if got.Some? then got.value else [];
      for i := 0 to |existing|
        invariant Clash(existing, r) == Clash(existing[i..], r)
      {
        assert existing[i..][1..] == existing[i + 1..];
        var e := existing[i];
        if EqualFold(e.mac, r.mac) {
          return MACTaken(e.ip);
        }
        if e.ip == r.ip {
          return IPTaken(e.mac);
        }
      }
      var ok := AddReservation(r, io);
      if !ok {
        return Failed;
      }
      return Reserved(r);
    }
  }
}
