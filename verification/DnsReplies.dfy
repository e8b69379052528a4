/** The other lines of dnsmasq that name a domain and an answer, such as replies: when the statistics
    ignore them. */
module DnsReplies {
  import opened Text
  import opened DnsStats
  import opened DnsLines

  /** For instance of the kind "reply", "config" or "/etc/hosts". */
  function AnswerLine(prefix: string, kind: string, domain: string, answer: string): string {
    prefix + AnswerText(kind, domain, answer)
  }

  function AnswerText(kind: string, domain: string, answer: string): string {
    kind + (" " + (domain + (" is " + answer)))
  }

  lemma AnswerParts(kind: string, domain: string, answer: string)
    ensures var m, k, d := AnswerText(kind, domain, answer), |kind|, |domain|;
            && |m| == k + d + 5 + |answer| && m[..k] == kind && m[k] == ' '
            && m[k + 1..k + 1 + d] == domain && m[k + 1 + d] == ' ' && m[k + 3 + d] == 's'
  {
  }

  lemma AnswerBlanks(kind: string, domain: string, answer: string, i: nat)
    requires Name(kind) && Name(domain) && Name(answer) && i < |AnswerText(kind, domain, answer)|
    ensures AnswerText(kind, domain, answer)[i] == ' '
       <==> i == |kind| || i == |kind| + 1 + |domain| || i == |kind| + 4 + |domain|
  {
    var m, k, d := AnswerText(kind, domain, answer), |kind|, |domain|;
    if i < k {
      assert m[i] == kind[i] && NameChar(kind[i]);
    } else if k < i < k + 1 + d {
      assert m[i] == domain[i - k - 1] && NameChar(domain[i - k - 1]);
    } else if k + 5 + d <= i {
      assert m[i] == answer[i - k - 5 - d] && NameChar(answer[i - k - 5 - d]);
    }
  }

  /** Where the word and a blank can stand in the text. */
  lemma VerbInAnswer(kind: string, domain: string, answer: string, word: string, i: nat)
    requires Name(kind) && Name(domain) && Name(answer) && Verb(word)
    requires At(AnswerText(kind, domain, answer), word + " ", i)
    ensures EndsWith(kind, word) || EndsWith(domain, word)
  {
    hide Name, AnswerText;
    var m, k, d, n := AnswerText(kind, domain, answer), |kind|, |domain|, |word|;
    var t := word + " ";
    AtChars(m, t, i);
    AnswerParts(kind, domain, answer);
    assert m[i + n] == t[n] == ' ' && m[i + n - 1] == t[n - 1] == word[n - 1];
    AnswerBlanks(kind, domain, answer, i + n);
    assert m[i..i + n] == m[i..i + |t|][..n] == word;
    if i + n == k {
      assert kind[k - n..] == m[..k][i..k] == word;
    } else {
      assert i + n == k + 1 + d;
      WordBehindBlank(m, word, i, k);
      assert domain[d - n..] == m[k + 1..k + 1 + d][d - n..] == m[i..i + n];
    }
  }

  /** A word without blanks that ends behind a blank begins behind it. */
  lemma WordBehindBlank(m: string, word: string, i: nat, k: nat)
    requires i + |word| <= |m| && m[i..i + |word|] == word && ' ' !in word
    requires k < i + |word| && m[k] == ' '
    ensures i > k
  {
    assert forall j | i <= j < i + |word| :: m[j] == word[j - i];
  }

  lemma VerbFound(lp: string, kind: string, domain: string, answer: string, word: string)
    requires Name(kind) && Name(domain) && Name(answer) && Verb(word)
    requires !Contains(lp, word + " ") && (lp != "" ==> lp[|lp| - 1] == ' ')
    ensures Contains(lp + AnswerText(kind, domain, answer), word + " ")
       <==> EndsWith(kind, word) || EndsWith(domain, word)
  {
    hide Index, Name, AnswerText, At;
    var m, t := AnswerText(kind, domain, answer), word + " ";
    if Contains(lp + m, t) {
      var i := Index(lp + m, t);
      IndexAt(lp + m, t);
      VerbNotBefore(lp, m, word, i);
      AtBehind(lp, m, t, i);
      VerbInAnswer(kind, domain, answer, word, i - |lp|);
    } else if EndsWith(kind, word) {
      VerbAt(lp, kind, domain, answer, word, |kind| - |word|);
    } else if EndsWith(domain, word) {
      VerbAt(lp, kind, domain, answer, word, |kind| + 1 + |domain| - |word|);
    }
  }

  lemma VerbAt(lp: string, kind: string, domain: string, answer: string, word: string, i: nat)
    requires Verb(word)
    requires (EndsWith(kind, word) && i == |kind| - |word|)
          || (EndsWith(domain, word) && i == |kind| + 1 + |domain| - |word|)
    ensures Contains(lp + AnswerText(kind, domain, answer), word + " ")
  {
    hide Contains, AnswerText, Verb, At;
    var m, t := AnswerText(kind, domain, answer), word + " ";
    AnswerParts(kind, domain, answer);
    if EndsWith(kind, word) && i == |kind| - |word| {
      WordEnds(m, word, 0, |kind|);
    } else {
      WordEnds(m, word, |kind| + 1, |kind| + 1 + |domain|);
    }
    AtLater(lp, m, t, i);
    FoundAt(lp + m, t, |lp| + i);
  }

  /** A prefix without any of the texts, "forwarded " included. */
  predicate Silent(prefix: string) {
    Quiet(prefix) && !Contains(ToLower(prefix), "forwarded ")
  }

  /** A word whose lower case ends in one of the two verbs. */
  predicate Verbal(word: string) {
    EndsWith(ToLower(word), "cached") || EndsWith(ToLower(word), "forwarded")
  }

  lemma HitSays(text: string)
    requires !Contains(ToLower(text), "query[")
    ensures Says(text).Hit? <==> Contains(ToLower(text), "cached ")
  {
    hide Index, FirstWord, ToLower;
  }

  /** Such a line is ignored if and only if neither its kind nor its domain ends in one of the verbs, and
      counted as a cache hit if and only if one of them ends in "cached". */
  lemma AnswerSays(prefix: string, kind: string, domain: string, answer: string)
    requires Silent(prefix) && Name(kind) && Name(domain) && Name(answer)
    ensures Says(AnswerLine(prefix, kind, domain, answer)) == Nothing <==> !Verbal(kind) && !Verbal(domain)
    ensures Says(AnswerLine(prefix, kind, domain, answer)).Hit?
       <==> EndsWith(ToLower(kind), "cached") || EndsWith(ToLower(domain), "cached")
  {
    hide Says, Index, Name, ToLower, AnswerText, EndsWith, Contains, Quiet;
    var lp, lk, ld, la := ToLower(prefix), ToLower(kind), ToLower(domain), ToLower(answer);
    IgnoredSays(AnswerLine(prefix, kind, domain, answer));
    LowerAnswer(prefix, kind, domain, answer);
    QuietLower(prefix);
    LowerName(kind);
    LowerName(domain);
    LowerName(answer);
    AnswerHasNoBracket(lk, ld, la);
    NoQueryAfter(lp, AnswerText(lk, ld, la));
    Verbs();
    QuietHasNoCached(lp);
    VerbFound(lp, lk, ld, la, "cached");
    VerbFound(lp, lk, ld, la, "forwarded");
    HitSays(AnswerLine(prefix, kind, domain, answer));
  }

  lemma LowerAnswer(prefix: string, kind: string, domain: string, answer: string)
    ensures ToLower(AnswerLine(prefix, kind, domain, answer))
         == ToLower(prefix) + AnswerText(ToLower(kind), ToLower(domain), ToLower(answer))
  {
    hide ToLower;
    LowerWords();
    LowerConcat(prefix, AnswerText(kind, domain, answer));
    LowerConcat(kind, " " + (domain + (" is " + answer)));
    LowerConcat(" ", domain + (" is " + answer));
    LowerConcat(domain, " is " + answer);
    LowerConcat(" is ", answer);
  }

  lemma AnswerHasNoBracket(kind: string, domain: string, answer: string)
    requires Name(kind) && Name(domain) && Name(answer)
    ensures '[' !in AnswerText(kind, domain, answer)
  {
    assert forall c <- kind :: NameChar(c);
    assert forall c <- domain :: NameChar(c);
    assert forall c <- answer :: NameChar(c);
  }

  /** For instance a reply for a host called "nas.cached" counts as a cache hit. */
  lemma ReplyCounted()
    ensures Says(AnswerLine(PREFIX, "reply", "nas.cached", "1.2.3.4")).Hit?
  {
    hide Says, Quiet, AnswerLine, ToLower, EndsWith;
    PrefixIsQuiet();
    PrefixIsSilent();
    assert Name("reply") && Name("1.2.3.4") && Name("nas.cached");
    HostIsVerbal();
    AnswerSays(PREFIX, "reply", "nas.cached", "1.2.3.4");
  }

  lemma PrefixIsSilent()
    ensures !Contains(ToLower(PREFIX), "forwarded ")
  {
    hide Index, ToLower;
    PrefixChars();
    if Contains(PREFIX, "forwarded ") {
      var i := Index(PREFIX, "forwarded ");
      IndexAt(PREFIX, "forwarded ");
      AtChars(PREFIX, "forwarded ", i);
    }
  }

  lemma HostIsVerbal()
    ensures EndsWith(ToLower("nas.cached"), "cached")
  {
    assert ToLower("nas.cached")[4..] == "cached";
  }
}
