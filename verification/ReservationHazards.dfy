/** What becomes of the reservations outside the plain case: submissions that do not read back, requests
    that overlap, and a deletion that takes another device with it. */
module ReservationHazards {
  import opened Seqs
  import opened Text
  import opened Options
  import opened Reservations
  import opened ReservationList

  // ----- submissions that do not read back

  /** The reservations that the text written for a submission reads as: one if it can be read back, and
      otherwise as many others as its newlines and commas make. */
  function Written(r: Reservation): seq<Reservation> {
    Listed(LineOf(r) + "\n")
  }

  /** Whatever is submitted, the list grows by what its text reads as; so the addresses stay unique
      exactly when these reservations clash neither with the list nor with each other. */
  lemma AnyAddExact(content: string, r: Reservation)
    requires Terminated(content) && Unique(Listed(content))
    ensures Listed(Added(content, r)) == Listed(content) + Written(r)
    ensures Unique(Listed(Added(content, r)))
       <==> Unique(Written(r)) && forall w <- Written(r) :: Clash(Listed(content), w) == None
  {
    hide ScanLines, ReservationOf, Unique, Clash, LineOf, Apart;
    ScanAppend(content, LineOf(r) + "\n");
    assert Added(content, r) == content + (LineOf(r) + "\n");
    FlatMapConcat(ReservationOf, ScanLines(content), ScanLines(LineOf(r) + "\n"));
    UniqueConcat(Listed(content), Written(r));
    forall w <- Written(r) ensures Clash(Listed(content), w) == None <==> AllApart(Listed(content), w) {
      ClashFinds(Listed(content), w);
    }
  }

  predicate AllApart(rs: seq<Reservation>, r: Reservation) {
    forall i | 0 <= i < |rs| :: Apart(rs[i], r)
  }

  lemma UniqueConcat(a: seq<Reservation>, b: seq<Reservation>)
    ensures Unique(a + b) <==> Unique(a) && Unique(b) && forall w <- b :: AllApart(a, w)
  {
    hide Apart;
    var all := a + b;
    assert forall i | 0 <= i < |a| :: all[i] == a[i];
    assert forall i | 0 <= i < |b| :: all[|a| + i] == b[i];
    if Unique(all) {
      forall w <- b ensures AllApart(a, w) {
        var j :| 0 <= j < |b| && b[j] == w;
        assert forall i | 0 <= i < |a| :: Apart(all[i], all[|a| + j]);
      }
      forall i, j | 0 <= i < j < |b| ensures Apart(b[i], b[j]) {
        assert Apart(all[|a| + i], all[|a| + j]);
      }
    }
    if Unique(a) && Unique(b) && forall w <- b :: AllApart(a, w) {
      forall i, j | 0 <= i < j < |all| ensures Apart(all[i], all[j]) {
        assert j >= |a| ==> all[j] == b[j - |a|] && b[j - |a|] in b;
      }
    }
  }

  /** A MAC address with a comma slips past the check: the part before the comma is what is read back. */
  lemma CommaSlipsPast(content: string, e: Reservation, tail: string, ip: string, hostname: string)
    requires Terminated(content) && Unique(Listed(content)) && e in Listed(content)
    requires OneLine(tail) && OneLine(ip) && OneLine(hostname) && Trim(hostname) == hostname
    requires forall x <- Listed(content) :: x.ip != ip
    ensures var r := Reservation(e.mac + "," + tail, ip, hostname);
            Clash(Listed(content), r) == None && !Unique(Listed(Added(content, r)))
  {
    hide Listed, Unique, Clash, Trim, Mentions, ReservationOf;
    var r := Reservation(e.mac + "," + tail, ip, hostname);
    var rs := Listed(content);
    ListedReadable(content);
    CommaIsApart(rs, r);
    ClashFinds(rs, r);
    FirstPart(r, e.mac, tail);
    AnyAddExact(content, r);
    var w := ReservationOf(LineOf(r))[0];
    WrittenLine(r);
    ClashFinds(rs, w);
    var i :| 0 <= i < |rs| && rs[i] == e;
    assert !Apart(e, w);
  }

  lemma CommaIsApart(rs: seq<Reservation>, r: Reservation)
    requires forall x <- rs :: Readable(x) && x.ip != r.ip
    requires ',' in r.mac
    ensures forall i | 0 <= i < |rs| :: Apart(rs[i], r)
  {
    forall i | 0 <= i < |rs| ensures Apart(rs[i], r) {
      assert rs[i] in rs;
    }
  }

  lemma FirstPart(r: Reservation, mac: string, tail: string)
    requires r.mac == mac + "," + tail && NoComma(mac) && Trim(r.hostname) == r.hostname
    ensures |ReservationOf(LineOf(r))| == 1 && ReservationOf(LineOf(r))[0].mac == mac
  {
    hide Trim;
    LineTrimmed(r);
    var l := LineOf(r);
    var rest := tail + ("," + (r.ip + "," + r.hostname));
    assert l[0] == 'd';
    assert l[|HOST|..] == mac + [','] + rest;
    CutAtFirst(mac, ',', rest);
    assert (mac + [','] + rest)[..|mac|] == mac;
  }

  lemma WrittenLine(r: Reservation)
    requires OneLine(r.mac) && OneLine(r.ip) && OneLine(r.hostname) && Trim(r.hostname) == r.hostname
    ensures Written(r) == ReservationOf(LineOf(r))
  {
    hide Trim, ScanLines, ReservationOf;
    LineTrimmed(r);
    var l := LineOf(r);
    ScanCons(l, "");
    ScanNothing();
    FlatMapAppend(ReservationOf, [], l);
    assert l + "\n" + "" == l + "\n" && [] + [l] == [l] && [l] + [] == [l];
  }

  // ----- two requests at a time

  /** The handlers take no lock: between the check of a request and its append others may do either.
      `waiting` are the submissions that have passed the check and are about to be appended. */
  datatype Shared = Shared(text: string, waiting: seq<Reservation>)

  datatype Move = Check(r: Reservation) | Append(i: nat) | Remove(mac: string)

  function Made(s: Shared, m: Move): Shared {
    match m
    case Check(r) => if Clash(Listed(s.text), r) == None then s.(waiting := s.waiting + [r]) else s
    case Append(i) =>
      if i < |s.waiting|
      then Shared(Added(s.text, s.waiting[i]), s.waiting[..i] + s.waiting[i + 1..])
      else s
    case Remove(mac) => s.(text := Without(s.text, mac))
  }

  function MadeAll(s: Shared, moves: seq<Move>): Shared {
    if moves == [] then s else Made(MadeAll(s, moves[..|moves| - 1]), moves[|moves| - 1])
  }

  predicate Submission(r: Reservation) {
    Readable(r) && Trim(r.hostname) == r.hostname
  }

  predicate Submits(m: Move) {
    m.Check? ==> Submission(m.r)
  }

  /** No check passes while something that the submission clashes with is waiting. */
  predicate InTurn(s: Shared, m: Move) {
    m.Check? && Clash(Listed(s.text), m.r) == None ==> AllApart(s.waiting, m.r)
  }

  predicate Sound(s: Shared) {
    Terminated(s.text) && Unique(Listed(s.text) + s.waiting) && forall w <- s.waiting :: Submission(w)
  }

  lemma AppendMoves(s: Shared, i: nat)
    requires Sound(s) && i < |s.waiting|
    ensures Sound(Made(s, Append(i)))
  {
    hide Listed, Unique, Submission, Added;
    var before, r, after := s.waiting[..i], s.waiting[i], s.waiting[i + 1..];
    assert s.waiting == before + ([r] + after);
    AppendedText(s.text, r);
    AllWithin(before, r, after);
    UniqueSwap(Listed(s.text), before, r, after);
  }

  lemma AllWithin(before: seq<Reservation>, r: Reservation, after: seq<Reservation>)
    ensures forall w <- before + after :: w in before + ([r] + after)
  {
  }

  lemma AppendedText(text: string, r: Reservation)
    requires Terminated(text) && Submission(r)
    ensures Terminated(Added(text, r)) && Listed(Added(text, r)) == Listed(text) + [r]
  {
    hide Listed, Readable, Trim;
    AddAppends(text, r);
    var a := Added(text, r);
    assert a[|a| - 1] == '\n';
  }

  /** Uniqueness does not depend on the order. */
  lemma UniqueSwap(a: seq<Reservation>, before: seq<Reservation>, r: Reservation, after: seq<Reservation>)
    requires Unique(a + (before + ([r] + after)))
    ensures Unique((a + [r]) + (before + after))
  {
    var old_, new_ := a + (before + ([r] + after)), (a + [r]) + (before + after);
    var n, m := |a|, |before|;
    forall i, j | 0 <= i < j < |new_| ensures Apart(new_[i], new_[j]) {
      var i' := if i < n then i else if i == n then n + m else if i <= n + m then i - 1 else i;
      var j' := if j < n then j else if j == n then n + m else if j <= n + m then j - 1 else j;
      assert new_[i] == old_[i'] && new_[j] == old_[j'];
      assert if i' < j' then Apart(old_[i'], old_[j']) else Apart(old_[j'], old_[i']);
    }
  }

  /** A check keeps what the interleavings rely on exactly when the submission clashes with none that is
      waiting. */
  lemma CheckExact(s: Shared, r: Reservation)
    requires Sound(s) && Submission(r) && Clash(Listed(s.text), r) == None
    ensures Sound(Made(s, Check(r))) <==> AllApart(s.waiting, r)
  {
    hide Listed, Unique, Apart, Submission, Clash;
    ClashFinds(Listed(s.text), r);
    UniqueConcat(Listed(s.text), s.waiting);
    UniqueConcat(s.waiting, [r]);
    UniqueOne(r);
    UniqueConcat(Listed(s.text), s.waiting + [r]);
    assert r in [r];
  }

  lemma UniqueOne(r: Reservation)
    ensures Unique([r])
  {
  }

  lemma RemoveMoves(s: Shared, mac: string)
    requires Sound(s)
    ensures Sound(Made(s, Remove(mac)))
  {
    hide Listed, Unique, Apart, Submission, Left, ScanLines, Join;
    var w := Without(s.text, mac);
    assert w[|w| - 1] == '\n';
    UniqueConcat(Listed(s.text), s.waiting);
    DeleteExact(s.text, mac);
    ListedIsFlat(s.text);
    UniqueLeft(ScanLines(s.text), mac);
    UniqueConcat(Listed(w), s.waiting);
    forall x <- s.waiting ensures AllApart(Listed(w), x) {
      FewerApart(Listed(s.text), Listed(w), x);
    }
  }

  lemma FewerApart(all: seq<Reservation>, some: seq<Reservation>, x: Reservation)
    requires AllApart(all, x) && forall r <- some :: r in all
    ensures AllApart(some, x)
  {
    hide Apart;
    forall i | 0 <= i < |some| ensures Apart(some[i], x) {
      assert some[i] in all;
      var k :| 0 <= k < |all| && all[k] == some[i];
    }
  }

  lemma MoveExact(s: Shared, m: Move)
    requires Sound(s) && Submits(m)
    ensures Sound(Made(s, m)) <==> InTurn(s, m)
  {
    hide Sound, Listed, Submission, Clash, Added;
    match m
    case Check(r) =>
      if Clash(Listed(s.text), r) == None {
        CheckExact(s, r);
      }
    case Append(i) =>
      if i < |s.waiting| {
        AppendMoves(s, i);
      }
    case Remove(mac) => RemoveMoves(s, mac);
  }

  predicate AlwaysSound(s: Shared, moves: seq<Move>) {
    forall n | 0 <= n <= |moves| :: Sound(MadeAll(s, moves[..n]))
  }

  predicate AllInTurn(s: Shared, moves: seq<Move>) {
    forall n | 0 <= n < |moves| :: InTurn(MadeAll(s, moves[..n]), moves[n])
  }

  /** Over any interleaving of checks, appends and deletions: at every moment the addresses are unique,
      those of the waiting submissions included, if and only if no check passes while something that the
      submission clashes with is waiting. */
  lemma {:induction false} InterleavedExact(s: Shared, moves: seq<Move>)
    requires Sound(s) && forall m <- moves :: Submits(m)
    ensures AlwaysSound(s, moves) <==> AllInTurn(s, moves)
    ensures AllInTurn(s, moves) ==> Unique(Listed(MadeAll(s, moves).text))
  {
    hide Sound, InTurn, Made, MadeAll, Unique, Listed, Submits;
    assert moves[..|moves|] == moves;
    if moves == [] {
      NoMoves(s);
      assert forall n | 0 <= n <= 0 :: moves[..n] == [];
    } else {
      var init, last := moves[..|moves| - 1], moves[|moves| - 1];
      assert moves == init + [last];
      InterleavedExact(s, init);
      assert forall n | 0 <= n <= |init| :: init[..n] == moves[..n];
      assert forall n | 0 <= n < |init| :: init[n] == moves[n];
      assert AlwaysSound(s, moves) <==> AlwaysSound(s, init) && Sound(MadeAll(s, moves));
      assert AllInTurn(s, moves) <==> AllInTurn(s, init) && InTurn(MadeAll(s, init), last);
      MadeSnoc(s, init, last);
      if AlwaysSound(s, init) {
        assert init[..|init|] == init;
        MoveExact(MadeAll(s, init), last);
      }
    }
    if AlwaysSound(s, moves) {
      SoundIsUnique(MadeAll(s, moves));
    }
  }

  lemma SoundIsUnique(s: Shared)
    requires Sound(s)
    ensures Unique(Listed(s.text))
  {
    hide Listed, Unique;
    UniqueConcat(Listed(s.text), s.waiting);
  }

  /** Appending whatever is waiting, in order. */
  function AppendAll(n: nat): seq<Move> {
    if n == 0 then [] else AppendAll(n - 1) + [Append(0)]
  }

  lemma {:induction false} AppendedAll(s: Shared, n: nat)
    requires Terminated(s.text) && n <= |s.waiting| && forall w <- s.waiting :: Submission(w)
    ensures Appended(s, MadeAll(s, AppendAll(n)), n)
  {
    hide Appended, Submission, MadeAll;
    if n == 0 {
      AppendedNone(s);
    } else {
      AppendedAll(s, n - 1);
      MadeSnoc(s, AppendAll(n - 1), Append(0));
      AppendedOneMore(s, MadeAll(s, AppendAll(n - 1)), n);
    }
  }

  /** The first `n` waiting submissions have been appended. */
  predicate Appended(s: Shared, t: Shared, n: nat)
    requires n <= |s.waiting|
  {
    Terminated(t.text) && t.waiting == s.waiting[n..] && Listed(t.text) == Listed(s.text) + s.waiting[..n]
  }

  lemma AppendedNone(s: Shared)
    requires Terminated(s.text)
    ensures Appended(s, MadeAll(s, AppendAll(0)), 0)
  {
    hide Listed;
    assert Listed(s.text) + [] == Listed(s.text);
  }

  lemma AppendedOneMore(s: Shared, t: Shared, n: nat)
    requires 0 < n <= |s.waiting| && Appended(s, t, n - 1) && Submission(s.waiting[n - 1])
    ensures Appended(s, Made(t, Append(0)), n)
  {
    hide Listed, Submission, Added;
    assert t.waiting[0] == s.waiting[n - 1];
    MadeAppend(t);
    AppendedText(t.text, t.waiting[0]);
    assert s.waiting[..n] == s.waiting[..n - 1] + [s.waiting[n - 1]];
  }

  lemma MadeAppend(s: Shared)
    requires s.waiting != []
    ensures Made(s, Append(0)) == Shared(Added(s.text, s.waiting[0]), s.waiting[1..])
  {
    assert s.waiting[..0] + s.waiting[1..] == s.waiting[1..];
  }

  /** However the waiting submissions came about, once they have been appended the addresses are unique
      exactly when neither two of them nor one of them and the list clash. */
  lemma WaitingExact(s: Shared)
    requires Terminated(s.text) && forall w <- s.waiting :: Submission(w)
    ensures Unique(Listed(MadeAll(s, AppendAll(|s.waiting|)).text)) <==> Sound(s)
  {
    hide Listed, Unique, Submission, MadeAll;
    AppendedAll(s, |s.waiting|);
    assert s.waiting[..|s.waiting|] == s.waiting;
  }

  /** Two requests that both pass the check before either is appended leave the addresses unique exactly
      when they were so before and the two do not clash with each other. */
  lemma RaceExact(text: string, a: Reservation, b: Reservation)
    requires Terminated(text) && Submission(a) && Submission(b)
    requires Clash(Listed(text), a) == None && Clash(Listed(text), b) == None
    ensures var t := MadeAll(Shared(text, []), [Check(a)] + [Check(b)] + [Append(0)] + [Append(0)]);
            t.waiting == [] && (Unique(Listed(t.text)) <==> Unique(Listed(text)) && Apart(a, b))
  {
    hide Listed, Unique, Clash, Submission, Added, Apart, Made;
    var s := Shared(text, [a, b]);
    BothPass(text, a, b);
    MadeTwice(Shared(text, []), [Check(a)] + [Check(b)]);
    MadeTwice(s, []);
    assert AppendAll(2) == [] + [Append(0)] + [Append(0)];
    AppendedAll(s, 2);
    WaitingExact(s);
    SoundPair(text, a, b);
  }

  lemma BothPass(text: string, a: Reservation, b: Reservation)
    requires Clash(Listed(text), a) == None && Clash(Listed(text), b) == None
    ensures MadeAll(Shared(text, []), [Check(a)] + [Check(b)]) == Shared(text, [a, b])
  {
    hide Listed, Clash, Made, MadeAll;
    var s := Shared(text, []);
    NoMoves(s);
    MadeSnoc(s, [], Check(a));
    MadeSnoc(s, [Check(a)], Check(b));
    CheckPasses(s, a);
    CheckPasses(Shared(text, [a]), b);
    assert [] + [Check(a)] == [Check(a)] && [] + [a] == [a] && [a] + [b] == [a, b];
  }

  lemma NoMoves(s: Shared)
    ensures MadeAll(s, []) == s
  {
  }

  lemma CheckPasses(s: Shared, r: Reservation)
    requires Clash(Listed(s.text), r) == None
    ensures Made(s, Check(r)) == s.(waiting := s.waiting + [r])
  {
    hide Listed, Clash;
  }

  lemma MadeTwice(s: Shared, moves: seq<Move>)
    ensures MadeAll(s, moves + [Append(0)] + [Append(0)]) == Made(Made(MadeAll(s, moves), Append(0)), Append(0))
  {
    hide Made;
    MadeSnoc(s, moves, Append(0));
    MadeSnoc(s, moves + [Append(0)], Append(0));
  }

  lemma SoundPair(text: string, a: Reservation, b: Reservation)
    requires Terminated(text) && Submission(a) && Submission(b)
    requires Clash(Listed(text), a) == None && Clash(Listed(text), b) == None
    ensures Sound(Shared(text, [a, b])) <==> Unique(Listed(text)) && Apart(a, b)
  {
    hide Listed, Unique, Clash, Submission, Apart;
    ClashFinds(Listed(text), a);
    ClashFinds(Listed(text), b);
    UniqueConcat(Listed(text), [a, b]);
    UniquePair(a, b);
    assert a in [a, b] && b in [a, b];
  }

  lemma UniquePair(a: Reservation, b: Reservation)
    ensures Unique([a, b]) <==> Apart(a, b)
  {
    hide Apart;
    assert Unique([a, b]) ==> Apart([a, b][0], [a, b][1]);
  }

  /** In particular two requests for one address. */
  lemma RaceDuplicates(text: string, r: Reservation)
    requires Terminated(text) && Submission(r) && Clash(Listed(text), r) == None
    ensures var t := MadeAll(Shared(text, []), [Check(r)] + [Check(r)] + [Append(0)] + [Append(0)]);
            t.waiting == [] && !Unique(Listed(t.text))
  {
    hide Listed, Unique, Clash, Submission, MadeAll, Apart;
    RaceExact(text, r, r);
    SelfNotApart(r);
  }

  lemma MadeSnoc(s: Shared, moves: seq<Move>, m: Move)
    ensures MadeAll(s, moves + [m]) == Made(MadeAll(s, moves), m)
  {
    assert (moves + [m])[..|moves|] == moves;
  }

  // ----- a deletion that takes another device with it

  /** A reservation whose host name is another device's address goes when that device is deleted. */
  lemma NeighbourDeleted(a: Reservation, b: Reservation)
    requires Submission(a) && Submission(b) && b.hostname == a.mac && !EqualFold(b.mac, a.mac)
    ensures var content := Added(Added("", a), b);
            && Listed(content) == [a, b]
            && Listed(Without(content, a.mac)) == []
  {
    hide Listed, Submission, Added, Mentions, ReservationOf, OtherMAC, ScanLines;
    var content := Added(Added("", a), b);
    AppendedText("", a);
    AppendedText(Added("", a), b);
    ListedNothing();
    assert [] + [a] == [a] && [a] + [b] == [a, b];
    TwoLines(a, b);
    DeleteExact(content, a.mac);
    LineMentions(a, a.mac);
    LineMentions(b, a.mac);
    NothingKept(a, b);
  }

  lemma TwoLines(a: Reservation, b: Reservation)
    requires Submission(a) && Submission(b)
    ensures ScanLines(Added(Added("", a), b)) == [LineOf(a), LineOf(b)]
  {
    hide ScanLines, Trim, Readable, LineOf, ReservationOf, DropCR;
    LineSays(a);
    LineSays(b);
    JoinedTexts(LineOf(a), LineOf(b));
    ScanAppend(LineOf(a) + "\n", LineOf(b) + "\n");
  }

  lemma JoinedTexts(x: string, y: string)
    ensures "" + x + "\n" + y + "\n" == (x + "\n") + (y + "\n") && Terminated(x + "\n")
  {
  }

  /** A line mentions its fields. */
  lemma LineMentions(r: Reservation, mac: string)
    ensures r.mac == mac || r.hostname == mac ==> Mentions(LineOf(r), mac)
  {
    hide Index, At, LineOf, ToLower;
    var l := LineOf(r);
    FieldsAt(r);
    if r.mac == mac || r.hostname == mac {
      var i := if r.mac == mac then |HOST| else |l| - |r.hostname|;
      LowerAt(l, mac, i);
      IndexIsFirst(ToLower(l), ToLower(mac), i);
    }
  }

  lemma FieldsAt(r: Reservation)
    ensures |r.hostname| <= |LineOf(r)|
    ensures At(LineOf(r), r.mac, |HOST|) && At(LineOf(r), r.hostname, |LineOf(r)| - |r.hostname|)
  {
    var tail := "," + (r.ip + "," + r.hostname);
    assert LineOf(r) == HOST + (r.mac + tail);
    AtMiddle(HOST, r.mac, tail);
    var head := HOST + (r.mac + ("," + (r.ip + ",")));
    assert LineOf(r) == head + (r.hostname + "");
    AtMiddle(head, r.hostname, "");
  }

  lemma AtMiddle(a: string, t: string, b: string)
    ensures At(a + (t + b), t, |a|)
  {
  }

  lemma LowerAt(s: string, t: string, i: nat)
    requires At(s, t, i)
    ensures At(ToLower(s), ToLower(t), i)
  {
    hide LowerChar;
    var low := ToLower(s);
    forall k | 0 <= k < |t| ensures low[i + k] == ToLower(t)[k] {
      assert s[i..i + |t|][k] == s[i + k];
    }
    assert low[i..i + |t|] == ToLower(t);
  }

  lemma NothingKept(a: Reservation, b: Reservation)
    requires Mentions(LineOf(a), a.mac) && Mentions(LineOf(b), a.mac)
    ensures Left([LineOf(a), LineOf(b)], a.mac) == []
  {
    hide Mentions;
    var lines := [LineOf(a), LineOf(b)];
    FilterNone(line => !Mentions(line, a.mac), lines);
  }
}
