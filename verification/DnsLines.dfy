/** The statistics read the lines that dnsmasq prints as they were meant, but for two kinds of
    forwarded domains. */
module DnsLines {
  import opened Seqs
  import opened Text
  import opened DnsStats
  import opened DnsCounting

  // ----- the lines

  function QueryLine(prefix: string, kind: string, domain: string, client: string): string {
    prefix + ("query[" + (kind + ("] " + (domain + (" from " + client)))))
  }

  function CachedLine(prefix: string, domain: string, answer: string): string {
    prefix + ("cached" + (" " + (domain + (" is " + answer))))
  }

  function ForwardedLine(prefix: string, domain: string, upstream: string): string {
    prefix + ("forwarded" + (" " + (domain + (" to " + upstream))))
  }

  /** What stands before the message: nothing, or words that contain none of the texts searched for. */
  predicate Quiet(prefix: string) {
    && (prefix != "" ==> prefix[|prefix| - 1] == ' ')
    && !Contains(ToLower(prefix), "query[") && !Contains(ToLower(prefix), "cached")
    && !Contains(ToLower(prefix), "] ") && !Contains(ToLower(prefix), " to ")
  }

  predicate NameChar(c: char) {
    !IsSpace(c) && c != '[' && c != ']'
  }

  predicate Name(s: string) {
    s != "" && forall c <- s :: NameChar(c)
  }

  predicate EndsWith(s: string, t: string) {
    |t| <= |s| && s[|s| - |t|..] == t
  }

  /** A forwarded domain that is misread. */
  predicate Misread(domain: string) {
    EndsWith(ToLower(domain), "cached") || ToLower(domain) == "to"
  }

  // ----- lower case

  lemma LowerConcat(a: string, b: string)
    ensures ToLower(a + b) == ToLower(a) + ToLower(b)
  {
  }

  lemma LowerChars(s: string)
    ensures forall i | 0 <= i < |s| :: NameChar(s[i]) ==> NameChar(ToLower(s)[i])
    ensures '[' !in s ==> '[' !in ToLower(s)
    ensures |ToLower(s)| == |s|
  {
  }

  lemma LowerName(s: string)
    requires Name(s)
    ensures Name(ToLower(s)) && |ToLower(s)| == |s|
  {
    LowerChars(s);
    forall c <- ToLower(s) ensures NameChar(c) {
      var i :| 0 <= i < |s| && ToLower(s)[i] == c;
      assert s[i] in s;
    }
  }

  // ----- first words

  lemma {:induction false} GapAfter(word: string, rest: string)
    requires (forall i | 0 <= i < |word| :: word[i] != ' ' && word[i] != '\t') && (rest == "" || rest[0] == ' ')
    ensures GapAt(word + rest) == |word|
  {
    if word == "" {
      assert word + rest == rest;
    } else {
      assert (word + rest)[1..] == word[1..] + rest;
      GapAfter(word[1..], rest);
    }
  }

  lemma FirstWordOf(word: string, rest: string)
    requires Name(word) && (rest == "" || rest[0] == ' ')
    ensures FirstWord(word + rest) == word && FirstWord(" " + (word + rest)) == word
  {
    hide TrimRight;
    var tail := TrimRight(rest);
    assert NameChar(word[|word| - 1]) && NameChar(word[0]);
    TrimRightKeeps(word, rest);
    TrimRightKeeps(" " + word, rest);
    assert " " + (word + rest) == " " + word + rest;
    assert (" " + word + tail)[1..] == word + tail;
    assert TrimLeft(word + tail) == word + tail;
    assert Trim(word + rest) == word + tail && Trim(" " + (word + rest)) == word + tail;
    assert forall i | 0 <= i < |word| :: NameChar(word[i]);
    GapAfter(word, tail);
  }

  /** A word ends at a blank or a tab, and white space in front of it does not count. */
  lemma FirstWordExact(spaces: string, word: string, gap: char, rest: string)
    requires Name(word) && (gap == ' ' || gap == '\t') && forall c <- spaces :: IsSpace(c)
    ensures FirstWord(spaces + (word + [gap] + rest)) == word && FirstWord(spaces + word) == word
  {
    hide TrimRight, TrimLeft;
    WordTrimmed(spaces, word, [gap] + rest);
    WordTrimmed(spaces, word, "");
    NothingTrimmed();
    assert word + [gap] + rest == word + ([gap] + rest) && word + "" == word;
    assert forall i | 0 <= i < |word| :: NameChar(word[i]);
    var tail := TrimRight([gap] + rest);
    TailStarts(gap, rest);
    GapBehind(word, tail);
    GapBehind(word, "");
  }

  lemma WordTrimmed(spaces: string, word: string, rest: string)
    requires Name(word) && forall c <- spaces :: IsSpace(c)
    ensures Trim(spaces + (word + rest)) == word + TrimRight(rest)
  {
    hide TrimLeft, TrimRight, IsSpace, Name;
    WordEdges(word);
    var before, tail := spaces + word, TrimRight(rest);
    assert before[|before| - 1] == word[|word| - 1];
    TrimRightKeeps(before, rest);
    assert spaces + (word + rest) == before + rest && before + tail == spaces + (word + tail);
    assert (word + tail)[0] == word[0];
    TrimLeftSpaces(spaces, word + tail);
  }

  lemma NothingTrimmed()
    ensures TrimRight("") == ""
  {
  }

  lemma WordEdges(word: string)
    requires Name(word)
    ensures word != "" && !IsSpace(word[0]) && !IsSpace(word[|word| - 1])
  {
    hide IsSpace;
    assert NameChar(word[0]) && NameChar(word[|word| - 1]);
  }

  lemma {:induction false} TailStarts(gap: char, rest: string)
    ensures var t := TrimRight([gap] + rest); t == "" || t[0] == gap
  {
    TrimRightPrefix([gap] + rest);
  }

  lemma {:induction false} TrimRightPrefix(s: string)
    ensures TrimRight(s) <= s
  {
    if s != "" && IsSpace(s[|s| - 1]) {
      TrimRightPrefix(s[..|s| - 1]);
    }
  }

  lemma {:induction false} GapBehind(word: string, rest: string)
    requires (forall i | 0 <= i < |word| :: NameChar(word[i]))
    requires rest == "" || rest[0] == ' ' || rest[0] == '\t'
    ensures GapAt(word + rest) == |word| && (word + rest)[..|word|] == word
  {
    if word == "" {
      assert word + rest == rest;
    } else {
      assert (word + rest)[1..] == word[1..] + rest;
      GapBehind(word[1..], rest);
    }
  }

  // ----- where the texts are found

  lemma AtChars(s: string, t: string, i: nat)
    requires At(s, t, i)
    ensures forall k | i <= k < i + |t| :: s[k] == t[k - i]
  {
    var u := s[i..i + |t|];
    assert forall k | i <= k < i + |t| :: s[k] == u[k - i];
  }

  /** An occurrence that ends within the first part is one in that part. */
  lemma AtPrefix(a: string, b: string, t: string, i: nat)
    requires At(a + b, t, i) && i + |t| <= |a|
    ensures Contains(a, t)
  {
    assert (a + b)[i..i + |t|] == a[i..i + |t|];
    IndexIsFirst(a, t, i);
  }

  lemma IndexAt(s: string, t: string)
    requires Contains(s, t)
    ensures At(s, t, Index(s, t))
  {
  }

  lemma FoundAt(s: string, t: string, i: nat)
    requires At(s, t, i)
    ensures Contains(s, t) && 0 <= Index(s, t) <= i && At(s, t, Index(s, t))
  {
    IndexIsFirst(s, t, i);
  }

  lemma NoQueryAfter(a: string, b: string)
    requires !Contains(a, "query[") && '[' !in b
    ensures !Contains(a + b, "query[")
  {
    hide Index;
    if Contains(a + b, "query[") {
      var i := Index(a + b, "query[");
      IndexAt(a + b, "query[");
      AtChars(a + b, "query[", i);
      assert (a + b)[i + 5] == "query["[5];
      assert forall k | |a| <= k < |a + b| :: (a + b)[k] == b[k - |a|];
      AtPrefix(a, b, "query[", i);
    }
  }

  /** A word behind a quiet text is found where it stands. */
  lemma FoundBehind(a: string, word: string, b: string)
    requires !Contains(a, word) && word != "" && ' ' !in word && (a != "" ==> a[|a| - 1] == ' ')
    ensures Index(a + (word + b), word) == |a|
  {
    hide Index;
    var s := a + (word + b);
    IndexIsFirst(s, word, |a|);
    var i := Index(s, word);
    IndexAt(s, word);
    AtChars(s, word, i);
    assert a != "" ==> s[|a| - 1] == ' ';
    assert forall k | 0 <= k < |word| :: word[k] != ' ';
    if i + |word| <= |a| {
      AtPrefix(a, word + b, word, i);
    }
  }

  // ----- queries

  lemma BracketFound(a: string, kind: string, b: string)
    requires !Contains(a, "] ") && (a != "" ==> a[|a| - 1] == ' ') && ']' !in kind
    ensures Index(a + ("query[" + (kind + ("] " + b))), "] ") == |a| + 6 + |kind|
  {
    hide Index, Contains;
    Regroup(a, "query[", kind, "] " + b);
    NoBracketInHead(kind);
    BracketBehind(a, "query[" + kind, b);
  }

  lemma Regroup(a: string, b: string, c: string, d: string)
    ensures a + (b + (c + d)) == a + ((b + c) + d)
  {
  }

  lemma NoBracketInHead(kind: string)
    requires ']' !in kind
    ensures ']' !in "query[" + kind && |"query[" + kind| == 6 + |kind|
  {
  }

  lemma BracketBehind(a: string, head: string, b: string)
    requires !Contains(a, "] ") && (a != "" ==> a[|a| - 1] == ' ') && ']' !in head
    ensures Index(a + (head + ("] " + b)), "] ") == |a| + |head|
  {
    hide Index, Contains;
    var t := "] ";
    var s := a + (head + (t + b));
    FoundSecond(a, head, t, b);
    NoBracketBefore(a, head, t + b, Index(s, t));
  }

  lemma FoundSecond(a: string, head: string, t: string, b: string)
    ensures var s := a + (head + (t + b));
            0 <= Index(s, t) <= |a| + |head| && At(s, t, Index(s, t))
  {
    hide Index, At, Contains;
    FoundAt(a + (head + (t + b)), t, |a| + |head|);
  }

  lemma NoBracketBefore(a: string, head: string, rest: string, i: nat)
    requires !Contains(a, "] ") && (a != "" ==> a[|a| - 1] == ' ') && ']' !in head
    requires At(a + (head + rest), "] ", i)
    ensures i >= |a| + |head|
  {
    hide Index, Contains;
    var s := a + (head + rest);
    AtChars(s, "] ", i);
    assert s[i] == ']';
    assert forall k | |a| <= k < |a| + |head| :: s[k] == head[k - |a|];
    assert a != "" ==> s[|a| - 1] == ' ';
    if i + 2 <= |a| {
      AtPrefix(a, head + rest, "] ", i);
    }
  }

  /** A query is counted for the domain that it asks for. */
  lemma QuerySays(prefix: string, kind: string, domain: string, client: string)
    requires Quiet(prefix) && (kind != "" ==> Name(kind)) && Name(domain)
    ensures Says(QueryLine(prefix, kind, domain, client)) == Asked(domain)
  {
    hide Index, FirstWord, Name, ToLower;
    var raw := QueryLine(prefix, kind, domain, client);
    var rest := domain + (" from " + client);
    LowerQuery(prefix, kind, rest);
    QuietLower(prefix);
    KindLower(kind);
    var lp, lk := ToLower(prefix), ToLower(kind);
    IndexIsFirst(ToLower(raw), "query[", |lp|);
    BracketFound(lp, lk, ToLower(rest));
    assert raw[|lp| + 6 + |lk| + 2..] == rest;
    FirstWordOf(domain, " from " + client);
  }

  lemma QuietLower(prefix: string)
    requires Quiet(prefix)
    ensures var p := ToLower(prefix);
            |p| == |prefix| && (p != "" ==> p[|p| - 1] == ' ')
            && !Contains(p, "query[") && !Contains(p, "cached") && !Contains(p, "] ") && !Contains(p, " to ")
  {
    hide Index;
  }

  lemma KindLower(kind: string)
    requires kind != "" ==> Name(kind)
    ensures ']' !in ToLower(kind) && |ToLower(kind)| == |kind|
  {
    if kind != "" {
      LowerName(kind);
    }
  }

  lemma LowerQuery(prefix: string, kind: string, rest: string)
    ensures ToLower(prefix + ("query[" + (kind + ("] " + rest))))
         == ToLower(prefix) + ("query[" + (ToLower(kind) + ("] " + ToLower(rest))))
  {
    LowerConcat(prefix, "query[" + (kind + ("] " + rest)));
    LowerConcat("query[", kind + ("] " + rest));
    LowerConcat(kind, "] " + rest);
    LowerConcat("] ", rest);
    LowerWords();
  }

  lemma LowerWords()
    ensures ToLower("query[") == "query[" && ToLower("] ") == "] " && ToLower("cached") == "cached"
    ensures ToLower(" ") == " " && ToLower("forwarded") == "forwarded" && ToLower(" to ") == " to "
    ensures ToLower(" is ") == " is "
  {
  }

  // ----- cache hits

  /** A cache hit is counted for the domain that was found. */
  lemma CachedSays(prefix: string, domain: string, answer: string)
    requires Quiet(prefix) && Name(domain) && '[' !in answer
    ensures Says(CachedLine(prefix, domain, answer)) == Hit(domain)
  {
    hide Index, FirstWord, Name, ToLower;
    var raw := CachedLine(prefix, domain, answer);
    var rest := " " + (domain + (" is " + answer));
    QuietLower(prefix);
    LowerWords();
    var lp := ToLower(prefix);
    LowerConcat(prefix, "cached" + rest);
    LowerConcat("cached", rest);
    NoBracketInRest(domain, " is " + answer);
    NoQueryAfter(lp, "cached" + ToLower(rest));
    LowerConcat(" ", domain + (" is " + answer));
    var tail := ToLower(domain + (" is " + answer));
    assert ToLower(raw) == lp + ("cached " + tail) by {
      assert "cached" + (" " + tail) == "cached " + tail;
    }
    IndexIsFirst(ToLower(raw), "cached ", |lp|);
    FoundBehind(lp, "cached", ToLower(rest));
    assert raw[|prefix| + 6..] == rest;
    FirstWordOf(domain, " is " + answer);
  }

  lemma NoBracketInRest(name: string, rest: string)
    requires Name(name) && '[' !in rest
    ensures '[' !in ToLower(" " + (name + rest))
  {
    LowerChars(" " + (name + rest));
  }

  // ----- forwards

  function Message(domain: string, upstream: string): string {
    "forwarded" + (" " + (domain + (" to " + upstream)))
  }

  /** Where the blanks of a forwarding message are. */
  lemma MessageBlanks(domain: string, upstream: string, k: nat)
    requires Name(domain) && Name(upstream) && k < |Message(domain, upstream)|
    ensures Message(domain, upstream)[k] == ' ' <==> k == 9 || k == 10 + |domain| || k == 13 + |domain|
  {
    var s := Message(domain, upstream);
    if 10 <= k < 10 + |domain| {
      assert s[k] == domain[k - 10] && NameChar(domain[k - 10]);
    } else if 14 + |domain| <= k < |s| {
      assert s[k] == upstream[k - 14 - |domain|] && NameChar(upstream[k - 14 - |domain|]);
    }
  }

  lemma MessageParts(domain: string, upstream: string)
    ensures var s := Message(domain, upstream);
            |s| == 14 + |domain| + |upstream| && s[6] == 'd' && s[9] == ' ' && s[12 + |domain|] == 'o'
            && s[10..10 + |domain|] == domain && s[10 + |domain|..14 + |domain|] == " to "
  {
  }

  /** Where a message can hold " to ". */
  lemma ToInMessage(domain: string, upstream: string, lp: string, i: nat)
    requires Name(domain) && Name(upstream) && !Contains(lp, " to ")
    requires At(lp + Message(domain, upstream), " to ", i)
    ensures i == |lp| + 10 + |domain| || (i == |lp| + 9 && domain == "to")
  {
    hide Index, Name, Message, Contains;
    var m := Message(domain, upstream);
    var s := lp + m;
    var d := |domain|;
    AtChars(s, " to ", i);
    MessageParts(domain, upstream);
    assert s[i + 3] == ' ' && s[i] == ' ';
    if i + 4 <= |lp| {
      AtPrefix(lp, m, " to ", i);
    }
    var k := i + 3 - |lp|;
    assert s[i + 3] == m[k];
    MessageBlanks(domain, upstream, k);
    assert s[|lp| + 6] == m[6];
    if k == 10 + d {
      assert s[i] == m[7 + d];
      MessageBlanks(domain, upstream, 7 + d);
      assert s[i + 1] == m[10] == domain[0] && s[i + 2] == m[11] == domain[1];
    }
  }

  lemma ToAt(domain: string, upstream: string)
    ensures At(Message(domain, upstream), " to ", 10 + |domain|)
    ensures domain == "to" ==> At(Message(domain, upstream), " to ", 9)
  {
    var m := Message(domain, upstream);
    MessageParts(domain, upstream);
    if domain == "to" {
      assert m[9..13] == " to ";
    }
  }

  lemma FoundInMessage(s: string, lp: string, m: string, t: string, at: nat)
    requires s == lp + m && At(m, t, at)
    ensures Contains(s, t) && 0 <= Index(s, t) <= |lp| + at && At(s, t, Index(s, t))
  {
    IndexIsFirst(s, t, |lp| + at);
  }

  lemma ToFound(domain: string, upstream: string, lp: string)
    requires Name(domain) && Name(upstream) && !Contains(lp, " to ")
    ensures Index(lp + Message(domain, upstream), " to ") == |lp| + if domain == "to" then 9 else 10 + |domain|
  {
    hide Index, Name, Message, At, Contains;
    var m := Message(domain, upstream);
    ToAt(domain, upstream);
    if domain == "to" {
      FoundInMessage(lp + m, lp, m, " to ", 9);
    } else {
      FoundInMessage(lp + m, lp, m, " to ", 10 + |domain|);
    }
    ToInMessage(domain, upstream, lp, Index(lp + m, " to "));
  }

  /** Where a message can hold "cached ". */
  lemma CachedInMessage(domain: string, upstream: string, i: nat)
    requires Name(domain) && Name(upstream) && At(Message(domain, upstream), "cached ", i)
    ensures EndsWith(domain, "cached")
  {
    hide Name, Message;
    var m := Message(domain, upstream);
    var d := |domain|;
    var t := "cached ";
    AtChars(m, t, i);
    MessageParts(domain, upstream);
    assert m[i + 6] == t[6] == ' ' && m[i + 3] == t[3] == 'h' && m[i + 5] == t[5] == 'd';
    MessageBlanks(domain, upstream, i + 6);
    assert i + 6 == 10 + d;
    assert forall j | 0 <= j < 6 :: t[j] != ' ';
    if d >= 6 {
      assert domain[d - 6..] == m[10..10 + d][d - 6..] == m[i..i + 6];
      assert m[i..i + 7][..6] == m[i..i + 6];
    }
  }

  /** A word without blanks that does not end in "s". */
  predicate Verb(word: string) {
    word != "" && word[|word| - 1] != 's' && ' ' !in word
  }

  lemma Verbs()
    ensures Verb("cached") && Verb("forwarded") && "cached" + " " == "cached " && "forwarded" + " " == "forwarded "
  {
  }

  lemma VerbNotBefore(lp: string, m: string, word: string, i: nat)
    requires !Contains(lp, word + " ") && (lp != "" ==> lp[|lp| - 1] == ' ') && Verb(word)
    requires At(lp + m, word + " ", i)
    ensures i >= |lp|
  {
    hide Contains;
    var t := word + " ";
    AtChars(lp + m, t, i);
    assert forall j | i <= j < i + |word| :: (lp + m)[j] == t[j - i] == word[j - i];
    if i + |t| <= |lp| {
      AtPrefix(lp, m, t, i);
      assert false;
    }
    assert lp != "" ==> (lp + m)[|lp| - 1] == ' ';
  }

  lemma AtBehind(a: string, b: string, t: string, i: nat)
    requires |a| <= i && At(a + b, t, i)
    ensures At(b, t, i - |a|)
  {
    assert (a + b)[i..i + |t|] == b[i - |a|..i - |a| + |t|];
  }

  lemma AtLater(a: string, b: string, t: string, i: nat)
    requires At(b, t, i)
    ensures At(a + b, t, |a| + i)
  {
    assert (a + b)[|a| + i..|a| + i + |t|] == b[i..i + |t|];
  }

  /** A part that ends in the word, with a blank behind it. */
  lemma WordEnds(m: string, word: string, from: nat, to: nat)
    requires from <= to < |m| && EndsWith(m[from..to], word) && m[to] == ' '
    ensures At(m, word + " ", to - |word|)
  {
    var i, part := to - |word|, m[from..to];
    assert part[|part| - |word|..] == m[i..to];
    assert m[i..to + 1] == m[i..to] + [m[to]];
  }

  lemma QuietHasNoCached(lp: string)
    requires !Contains(lp, "cached")
    ensures !Contains(lp, "cached ")
  {
    hide Index;
    if Contains(lp, "cached ") {
      var i := Index(lp, "cached ");
      IndexAt(lp, "cached ");
      assert lp[i..i + 6] == lp[i..i + 7][..6] == "cached";
      FoundAt(lp, "cached", i);
    }
  }

  lemma CachedFound(domain: string, upstream: string, lp: string)
    requires Name(domain) && Name(upstream) && !Contains(lp, "cached") && (lp != "" ==> lp[|lp| - 1] == ' ')
    ensures Contains(lp + Message(domain, upstream), "cached ") <==> EndsWith(domain, "cached")
  {
    hide Index, Name, Message, At, Verb;
    var m, t := Message(domain, upstream), "cached ";
    MessageParts(domain, upstream);
    Verbs();
    QuietHasNoCached(lp);
    if Contains(lp + m, t) {
      var i := Index(lp + m, t);
      IndexAt(lp + m, t);
      VerbNotBefore(lp, m, "cached", i);
      AtBehind(lp, m, t, i);
      CachedInMessage(domain, upstream, i - |lp|);
    } else if EndsWith(domain, "cached") {
      WordEnds(m, "cached", 10, 10 + |domain|);
      AtLater(lp, m, t, 4 + |domain|);
      FoundAt(lp + m, t, |lp| + 4 + |domain|);
    }
  }

  /** A forward is counted for its upstream, exactly when the domain does not end in "cached", which
      makes it a cache hit, and is not the top-level domain "to", which becomes the upstream. */
  lemma ForwardedSays(prefix: string, domain: string, upstream: string)
    requires Quiet(prefix) && Name(domain) && Name(upstream) && ('.' in upstream || ':' in upstream)
    ensures Says(ForwardedLine(prefix, domain, upstream)) == Sent(upstream) <==> !Misread(domain)
  {
    hide Index, FirstWord, Name, ToLower, Message, Contains;
    var raw := ForwardedLine(prefix, domain, upstream);
    var lp, ld, lu := ToLower(prefix), ToLower(domain), ToLower(upstream);
    var lower := lp + Message(ld, lu);
    LowerForwarded(prefix, domain, upstream);
    QuietLower(prefix);
    LowerName(domain);
    LowerName(upstream);
    NoBracketInMessage(ld, lu);
    NoQueryAfter(lp, Message(ld, lu));
    CachedFound(ld, lu, lp);
    ForwardedFound(ld, lu, lp);
    ToFound(ld, lu, lp);
    LowerWords();
    if !EndsWith(ld, "cached") {
      ToWord(prefix, domain, upstream);
    }
  }

  lemma LowerForwarded(prefix: string, domain: string, upstream: string)
    ensures ToLower(ForwardedLine(prefix, domain, upstream)) ==
            ToLower(prefix) + Message(ToLower(domain), ToLower(upstream))
  {
    hide ToLower;
    LowerWords();
    LowerConcat(" to ", upstream);
    LowerConcat(domain, " to " + upstream);
    LowerConcat(" ", domain + (" to " + upstream));
    LowerConcat("forwarded", " " + (domain + (" to " + upstream)));
    LowerConcat(prefix, Message(domain, upstream));
  }

  lemma NoBracketInMessage(domain: string, upstream: string)
    requires Name(domain) && Name(upstream)
    ensures '[' !in Message(domain, upstream)
  {
    assert forall c <- domain :: NameChar(c);
    assert forall c <- upstream :: NameChar(c);
  }

  lemma ForwardedFound(domain: string, upstream: string, lp: string)
    ensures Contains(lp + Message(domain, upstream), "forwarded ")
  {
    hide Index;
    var t := "forwarded ";
    var rest := domain + (" to " + upstream);
    assert Message(domain, upstream) == t + rest;
    FoundAt(lp + (t + rest), t, |lp|);
  }

  /** The word behind the place where " to " is found. */
  lemma ToWord(prefix: string, domain: string, upstream: string)
    requires Name(domain) && Name(upstream) && ('.' in upstream || ':' in upstream)
    requires |ToLower(domain)| == |domain|
    ensures var raw := ForwardedLine(prefix, domain, upstream);
            var at := |prefix| + if ToLower(domain) == "to" then 9 else 10 + |domain|;
            at + 4 <= |raw| && (FirstWord(raw[at + 4..]) == upstream <==> ToLower(domain) != "to")
  {
    hide FirstWord, Name, ToLower;
    var raw := ForwardedLine(prefix, domain, upstream);
    var m := Message(domain, upstream);
    assert raw == prefix + m;
    if ToLower(domain) == "to" {
      assert m[13..] == "to" + (" " + upstream);
      assert raw[|prefix| + 13..] == m[13..];
      ToIsName();
      FirstWordOf("to", " " + upstream);
    } else {
      assert m[14 + |domain|..] == upstream;
      assert raw[|prefix| + (14 + |domain|)..] == m[14 + |domain|..];
      FirstWordOf(upstream, "");
      assert upstream + "" == upstream;
    }
  }

  lemma ToIsName()
    ensures Name("to")
  {
  }

  /** The prefix that dnsmasq puts before its messages. */
  const PREFIX := "dnsmasq[1]: "

  lemma PrefixChars()
    ensures ToLower(PREFIX) == PREFIX && |PREFIX| == 12
    ensures forall i | 0 <= i < 12 ::
              (PREFIX[i] == '[' ==> i == 7) && (PREFIX[i] == ']' ==> i == 9) && (PREFIX[i] == ' ' ==> i == 11)
    ensures PREFIX[2] == 's' && PREFIX[10] == ':' && forall i | 0 <= i < 12 :: PREFIX[i] != 'c'
  {
  }

  lemma PrefixIsQuiet()
    ensures Quiet(PREFIX)
  {
    hide Index, ToLower;
    PrefixChars();
    PrefixLacks("query[", 5, '[');
    PrefixLacks("cached", 0, 'c');
    PrefixLacks("] ", 0, ']');
    PrefixLacks(" to ", 0, ' ');
  }

  /** None of the texts has a place in the prefix: the position of one of its characters rules it out. */
  lemma PrefixLacks(t: string, k: nat, c: char)
    requires k < |t| && t[k] == c
    requires (c == '[' && k == 5 && t[0] == 'q') || c == 'c' || (c == ']' && k == 0 && |t| > 1 && t[1] == ' ')
          || (c == ' ' && k == 0 && |t| > 1)
    ensures !Contains(PREFIX, t)
  {
    hide Index;
    PrefixChars();
    if Contains(PREFIX, t) {
      var i := Index(PREFIX, t);
      IndexAt(PREFIX, t);
      AtChars(PREFIX, t, i);
    }
  }

  /** Such lines: a lookup of the top-level domain "to", and one of a host called "nas.cached". */
  lemma MisreadLines()
    ensures Says(ForwardedLine(PREFIX, "to", "1.1.1.1")) != Sent("1.1.1.1")
    ensures Says(ForwardedLine(PREFIX, "nas.cached", "1.1.1.1")) != Sent("1.1.1.1")
  {
    hide Says, Quiet, ForwardedLine;
    PrefixIsQuiet();
    ForwardedSays(PREFIX, "to", "1.1.1.1");
    ForwardedSays(PREFIX, "nas.cached", "1.1.1.1");
  }

  // ----- whole logs

  datatype Event =
    | Query(prefix: string, kind: string, domain: string, client: string)
    | Cached(prefix: string, domain: string, answer: string)
    | Forwarded(prefix: string, domain: string, upstream: string)
    | Other(text: string)

  function Printed(e: Event): string {
    match e
    case Query(prefix, kind, domain, client) => QueryLine(prefix, kind, domain, client)
    case Cached(prefix, domain, answer) => CachedLine(prefix, domain, answer)
    case Forwarded(prefix, domain, upstream) => ForwardedLine(prefix, domain, upstream)
    case Other(text) => text
  }

  function Meaning(e: Event): Said {
    match e
    case Query(_, _, domain, _) => Asked(domain)
    case Cached(_, domain, _) => Hit(domain)
    case Forwarded(_, _, upstream) => Sent(upstream)
    case Other(_) => Nothing
  }

  /** A line in which none of the texts occurs that the statistics look for. */
  predicate Ignored(text: string) {
    var lower := ToLower(text);
    !Contains(lower, "query[") && !Contains(lower, "cached ") && !Contains(lower, "forwarded ")
  }

  predicate Fair(e: Event) {
    match e
    case Query(prefix, kind, domain, _) => Quiet(prefix) && Name(domain) && (kind != "" ==> Name(kind))
    case Cached(prefix, domain, answer) => Quiet(prefix) && Name(domain) && '[' !in answer
    case Forwarded(prefix, domain, upstream) =>
      && Quiet(prefix) && Name(domain)
      && Name(upstream) && ('.' in upstream || ':' in upstream) && !Misread(domain)
    case Other(text) => Ignored(text)
  }

  lemma EventSays(e: Event)
    requires Fair(e)
    ensures Says(Printed(e)) == Meaning(e)
  {
    hide Says, Quiet, Name, Misread, QueryLine, CachedLine, ForwardedLine;
    match e
    case Query(prefix, kind, domain, client) => QuerySays(prefix, kind, domain, client);
    case Cached(prefix, domain, answer) => CachedSays(prefix, domain, answer);
    case Forwarded(prefix, domain, upstream) => ForwardedSays(prefix, domain, upstream);
    case Other(text) => IgnoredSays(text);
  }

  lemma IgnoredSays(text: string)
    ensures Says(text) == Nothing <==> Ignored(text)
  {
    hide Index, FirstWord, ToLower;
  }

  function Number(test: Said -> bool, events: seq<Event>): nat {
    |Filter(e => test(Meaning(e)), events)|
  }

  lemma {:induction false} CountPrinted(test: Said -> bool, events: seq<Event>)
    requires forall e <- events :: Fair(e)
    ensures Count(test, Map(Printed, events)) == Number(test, events)
  {
    hide Fair, Says, Printed, Meaning;
    if events == [] {
      CountNothing(test);
    } else {
      var init, last := events[..|events| - 1], events[|events| - 1];
      CountPrinted(test, init);
      assert events == init + [last];
      assert Map(Printed, events) == Map(Printed, init) + [Printed(last)];
      CountSnoc(test, Map(Printed, init), Printed(last));
      FilterAppend(e => test(Meaning(e)), init, last);
      EventSays(last);
    }
  }

  /** The counters after a log of such lines and any other ones are the numbers of the events. */
  lemma LogCounts(events: seq<Event>, k: string)
    requires k != "" && forall e <- events :: Fair(e)
    ensures var c := Run(Map(Printed, events));
            c.queries == Number(IsQuery, events) && c.cacheHits == Number(IsHit, events)
            && c.forwarded == Number(IsSent, events)
            && Get(c.byDomain, k) == Number((said: Said) => DomainIn(said) == k, events)
            && Get(c.byUpstream, k) == Number((said: Said) => UpstreamIn(said) == k, events)
  {
    hide Fair, Run, Count, Number, SumsTally;
    CountersCount(Map(Printed, events));
    CountPrinted(IsQuery, events);
    CountPrinted(IsHit, events);
    CountPrinted(IsSent, events);
    CountPrinted((said: Said) => DomainIn(said) == k, events);
    CountPrinted((said: Said) => UpstreamIn(said) == k, events);
    assert KeysTally(Run(Map(Printed, events)), Map(Printed, events), k);
  }
}
