/**
 What one line of the DNS query log says, and which site a name belongs to.
 */
module Names {
  import opened Options
  import opened Strings

  /** What a log line says: a lookup of a site, a name answered as blocked, or nothing to count. */
  datatype Fact = Visit(site: string) | Blocked(name: string) | Nothing

  type Reader = string -> Fact

  // ---- Text ----

  /** Where `pattern` first occurs. */
  function Find(s: string, pattern: string): (i: Option<nat>)
    ensures i.Some? ==> i.value + |pattern| <= |s| && s[i.value..i.value + |pattern|] == pattern
  {
    if pattern <= s then Some(0)
    else if s == "" then None
    else match Find(s[1..], pattern)
      case Some(i) => assert s[1..][i..i + |pattern|] == s[i + 1..i + 1 + |pattern|]; Some(i + 1)
      case None => None
  }

  function SkipSpaces(s: string): (r: string)
    ensures |r| <= |s| && (r != "" ==> !IsSpace(r[0]))
  {
    if s != "" && IsSpace(s[0]) then SkipSpaces(s[1..]) else s
  }

  /** How long the word at the start of `s` is. */
  function WordLength(s: string): (n: nat)
    ensures n <= |s|
  {
    if s == "" || IsSpace(s[0]) then 0 else 1 + WordLength(s[1..])
  }

  function Words(s: string): seq<string>
    decreases |s|
  {
    var r := SkipSpaces(s);
    if r == "" then [] else [r[..WordLength(r)]] + Words(r[WordLength(r)..])
  }

  function LowerChar(c: char): char {
    if 'A' <= c <= 'Z' then c - 'A' + 'a' else c
  }

  function Lower(s: string): (r: string)
    ensures |r| == |s| && forall i :: 0 <= i < |s| ==> r[i] == LowerChar(s[i])
  {
    if s == "" then "" else [LowerChar(s[0])] + Lower(s[1..])
  }

  function TrimDots(s: string): (r: string)
    ensures r <= s && (forall i :: |r| <= i < |s| ==> s[i] == '.') && (r != "" ==> r[|r| - 1] != '.')
  {
    if s != "" && s[|s| - 1] == '.' then TrimDots(s[..|s| - 1]) else s
  }

  // ---- Sites ----

  function DotAt(s: string): (i: nat)
    ensures i <= |s| && (i < |s| ==> s[i] == '.')
    ensures '.' !in s[..i]
  {
    if s == "" || s[0] == '.' then 0 else 1 + DotAt(s[1..])
  }

  /** The labels of a name, empty ones left out. */
  function Labels(s: string): seq<string>
    decreases |s|
  {
    if s == "" then []
    else if s[0] == '.' then Labels(s[1..])
    else [s[..DotAt(s)]] + Labels(s[DotAt(s)..])
  }

  function Join(labels: seq<string>): string {
    if labels == [] then ""
    else if |labels| == 1 then labels[0]
    else labels[0] + "." + Join(labels[1..])
  }

  /** A second level under which anyone registers (`co.uk`). */
  predicate PublicSecond(name: string) {
    name in ["co", "com", "org", "net", "ac", "gov", "edu"]
  }

  /** The labels a site keeps: the last two, or three where anyone registers under the second. */
  function SiteLabels(labels: seq<string>): seq<string> {
    if |labels| <= 2 then labels
    else
      var take := if PublicSecond(labels[|labels| - 2]) then 3 else 2;
      labels[|labels| - take..]
  }

  /** The site a name is counted under. */
  function Registrable(domain: string): string {
    Join(SiteLabels(Labels(Lower(TrimDots(domain)))))
  }

  // ---- Lines ----

  /** The name a query line asks for. */
  function Queried(line: string): Option<string> {
    match Find(line, " query[")
    case None => None
    case Some(i) =>
      var rest := line[i..];
      match Find(rest, "] ")
      case None => None
      case Some(j) =>
        var words := Words(rest[j + 2..]);
        if words == [] then None else Some(words[0])
  }

  function IndexOf(words: seq<string>, w: string): Option<nat> {
    if words == [] then None
    else if words[0] == w then Some(0)
    else match IndexOf(words[1..], w)
      case Some(i) => Some(i + 1)
      case None => None
  }

  /** The name answered with the blocked address by the words from `i` on. */
  function BlockedAt(words: seq<string>, i: nat): Option<string> {
    if i + 3 < |words| && words[i + 2] == "is" && words[i + 3] in ["0.0.0.0", "::"] then Some(words[i + 1])
    else None
  }

  /** The name this computer's own rules answered as blocked. */
  function BlockedName(line: string): Option<string> {
    var words := Words(line);
    match IndexOf(words, "config")
    case None => None
    case Some(i) => BlockedAt(words, i)
  }

  /** What a line says; `own` tells the lookups no person made. */
  function ReadLine(line: string, own: string -> bool): Fact {
    match Queried(line)
    case Some(name) =>
      if own(TrimDots(name)) then Nothing
      else
        var site := Registrable(name);
        if '.' in site then Visit(site) else Nothing
    case None =>
      match BlockedName(line)
      case Some(name) =>
        if own(TrimDots(name)) then Nothing
        else
          var plain := Lower(TrimDots(name));
          if '.' in plain then Blocked(plain) else Nothing
      case None => Nothing
  }

  // ---- A site is stable, and its subdomains count under it ----

  predicate Clean(labels: seq<string>) {
    forall l <- labels :: l != "" && '.' !in l
  }

  lemma {:induction false} LabelsAreClean(s: string)
    ensures Clean(Labels(s))
    decreases |s|
  {
    if s == "" {
    } else if s[0] == '.' {
      LabelsAreClean(s[1..]);
    } else {
      LabelsAreClean(s[DotAt(s)..]);
    }
  }

  lemma {:induction false} DotAtIs(s: string, i: nat)
    requires i <= |s| && '.' !in s[..i] && (i < |s| ==> s[i] == '.')
    ensures DotAt(s) == i
  {
    if i > 0 {
      assert s[0] == s[..i][0];
      assert s[1..][..i - 1] == s[..i][1..];
      DotAtIs(s[1..], i - 1);
    }
  }

  /** A label put in front of a name is one more label. */
  lemma LabelInFront(l: string, d: string)
    requires l != "" && '.' !in l
    ensures Labels(l + "." + d) == [l] + Labels(d)
  {
    var s := l + "." + d;
    assert s[..|l|] == l;
    DotAtIs(s, |l|);
    assert s[0] == l[0] && l[0] in l;
    assert s[|l|..] == "." + d && ("." + d)[1..] == d;
  }

  lemma {:induction false} LabelsOfJoin(labels: seq<string>)
    requires Clean(labels)
    ensures Labels(Join(labels)) == labels
  {
    if labels == [] {
    } else {
      assert labels[0] in labels;
      if |labels| == 1 {
        var l := labels[0];
        assert l[..|l|] == l && l[|l|..] == "" && l[0] in l;
        DotAtIs(l, |l|);
      } else {
        assert forall x <- labels[1..] :: x in labels;
        LabelsOfJoin(labels[1..]);
        LabelInFront(labels[0], Join(labels[1..]));
      }
    }
  }

  lemma {:induction false} DotAtEnd(s: string)
    ensures Labels(s + ".") == Labels(s)
    decreases |s|
  {
    var t := s + ".";
    if s == "" {
      assert t[1..] == "";
    } else if s[0] == '.' {
      assert t[1..] == s[1..] + ".";
      DotAtEnd(s[1..]);
    } else {
      assert t[..DotAt(s)] == s[..DotAt(s)];
      DotAtIs(t, DotAt(s));
      assert t[DotAt(s)..] == s[DotAt(s)..] + ".";
      DotAtEnd(s[DotAt(s)..]);
    }
  }

  lemma {:induction false} LabelsOfTrimmed(s: string)
    ensures Labels(TrimDots(s)) == Labels(s)
  {
    if s != "" && s[|s| - 1] == '.' {
      LabelsOfTrimmed(s[..|s| - 1]);
      DotAtEnd(s[..|s| - 1]);
      assert s == s[..|s| - 1] + ".";
    }
  }

  /** No capital letters. */
  predicate Plain(s: string) {
    forall i :: 0 <= i < |s| ==> LowerChar(s[i]) == s[i]
  }

  predicate AllPlain(labels: seq<string>) {
    forall l <- labels :: Plain(l)
  }

  lemma {:induction false} LabelsArePlain(s: string)
    requires Plain(s)
    ensures AllPlain(Labels(s))
    decreases |s|
  {
    if s == "" {
    } else if s[0] == '.' {
      LabelsArePlain(s[1..]);
    } else {
      LabelsArePlain(s[DotAt(s)..]);
    }
  }

  lemma {:induction false} JoinIsPlain(labels: seq<string>)
    requires AllPlain(labels)
    ensures Plain(Join(labels))
  {
    if labels == [] {
    } else {
      assert labels[0] in labels;
      if |labels| > 1 {
        assert forall x <- labels[1..] :: x in labels;
        JoinIsPlain(labels[1..]);
      }
    }
  }

  lemma LowerOfPlain(s: string)
    requires Plain(s)
    ensures Lower(s) == s
  {
  }

  lemma {:induction false} TrimmedIsPlain(s: string)
    requires Plain(s)
    ensures Plain(TrimDots(s))
  {
    if s != "" && s[|s| - 1] == '.' {
      TrimmedIsPlain(s[..|s| - 1]);
    }
  }

  /** A site's name is the site of itself. */
  lemma RegistrableIsStable(domain: string)
    ensures Registrable(Registrable(domain)) == Registrable(domain)
  {
    var lower := Lower(TrimDots(domain));
    assert Plain(lower);
    var labels := Labels(lower);
    LabelsAreClean(lower);
    LabelsArePlain(lower);
    var tail := SiteLabels(labels);
    assert forall l <- tail :: l in labels;
    var site := Join(tail);
    LabelsOfJoin(tail);
    JoinIsPlain(tail);
    TrimmedIsPlain(site);
    LowerOfPlain(TrimDots(site));
    LabelsOfTrimmed(site);
    assert SiteLabels(tail) == tail;
  }

  lemma SiteOfLabelInFront(l: string, labels: seq<string>)
    ensures SiteLabels([l] + labels) == SiteLabels(labels) <==> |labels| >= 3 || (|labels| == 2 && !PublicSecond(labels[0]))
  {
    if |labels| == 2 {
      assert ([l] + labels)[1..] == labels;
    } else if |labels| == 1 {
      assert |SiteLabels([l] + labels)| == 2;
    }
  }

  lemma SiteLabelsAreClean(labels: seq<string>)
    requires Clean(labels)
    ensures Clean(SiteLabels(labels))
  {
    assert forall l <- SiteLabels(labels) :: l in labels;
  }

  lemma JoinIsInjective(a: seq<string>, b: seq<string>)
    requires Clean(a) && Clean(b) && Join(a) == Join(b)
    ensures a == b
  {
    LabelsOfJoin(a);
    LabelsOfJoin(b);
  }

  lemma LowerOfParts(s: string)
    ensures s != "" ==> Lower(s)[..|s| - 1] == Lower(s[..|s| - 1])
  {
  }

  lemma {:induction false} LowerTrims(s: string)
    ensures TrimDots(Lower(s)) == Lower(TrimDots(s))
  {
    LowerOfParts(s);
    if s != "" && s[|s| - 1] == '.' {
      LowerTrims(s[..|s| - 1]);
    }
  }

  /** A site depends on the labels of its name in small letters, and on nothing else. */
  lemma RegistrableIsOfLabels(domain: string)
    ensures Registrable(domain) == Join(SiteLabels(Labels(Lower(domain)))) && Clean(Labels(Lower(domain)))
  {
    LowerTrims(domain);
    LabelsOfTrimmed(Lower(domain));
    LabelsAreClean(Lower(domain));
  }

  lemma LowerInFront(l: string, d: string)
    requires l != "" && '.' !in l
    ensures Labels(Lower(l + "." + d)) == [Lower(l)] + Labels(Lower(d))
  {
    assert Lower(l + "." + d) == Lower(l) + "." + Lower(d);
    forall i | 0 <= i < |l|
      ensures Lower(l)[i] != '.'
    {
      assert l[i] in l;
    }
    LabelInFront(Lower(l), Lower(d));
  }

  /**
   A name under another counts for the same site, whatever their letter case and trailing dots, unless
   the other is a public second level with nothing in front (`co.uk`), or has fewer than two labels.
   */
  lemma SubdomainsShareTheSiteIff(l: string, d: string)
    requires l != "" && '.' !in l
    ensures var labels := Labels(Lower(d));
      Registrable(l + "." + d) == Registrable(d)
      <==> |labels| >= 3 || (|labels| == 2 && labels[0] !in ["co", "com", "org", "net", "ac", "gov", "edu"])
  {
    RegistrableIsOfLabels(l + "." + d);
    RegistrableIsOfLabels(d);
    LowerInFront(l, d);
    SiteOfLabelInFront(Lower(l), Labels(Lower(d)));
    SiteLabelsAreClean(Labels(Lower(l + "." + d)));
    SiteLabelsAreClean(Labels(Lower(d)));
    if Registrable(l + "." + d) == Registrable(d) {
      JoinIsInjective(SiteLabels(Labels(Lower(l + "." + d))), SiteLabels(Labels(Lower(d))));
    }
  }

  // ---- A query line is read back ----

  lemma {:induction false} FindFirst(before: string, pattern: string, after: string)
    requires pattern != "" && forall i :: 0 <= i < |before| ==> !(pattern <= (before + pattern + after)[i..])
    ensures Find(before + pattern + after, pattern) == Some(|before|)
  {
    var s := before + pattern + after;
    if before == "" {
      assert s == pattern + after;
    } else {
      assert s[0..] == s;
      assert s[1..] == before[1..] + pattern + after;
      forall i | 0 <= i < |before| - 1
        ensures !(pattern <= s[1..][i..])
      {
        assert s[1..][i..] == s[i + 1..];
      }
      FindFirst(before[1..], pattern, after);
    }
  }

  lemma {:induction false} WordLengthIs(word: string, after: string)
    requires forall i :: 0 <= i < |word| ==> !IsSpace(word[i])
    ensures WordLength(word + " " + after) == |word|
  {
    var s := word + " " + after;
    if word == "" {
    } else {
      assert s[1..] == word[1..] + " " + after;
      WordLengthIs(word[1..], after);
    }
  }

  /** One word: something, and no white space. */
  predicate IsWord(w: string) {
    w != "" && forall i :: 0 <= i < |w| ==> !IsSpace(w[i])
  }

  lemma FirstWord(name: string, after: string)
    requires IsWord(name)
    ensures var words := Words(name + " " + after); words != [] && words[0] == name
  {
    var s := name + " " + after;
    assert s[0] == name[0];
    WordLengthIs(name, after);
    assert s[..|name|] == name;
  }

  lemma FieldEnds(kind: string, rest: string)
    requires ']' !in kind
    ensures Find(" query[" + kind + "] " + rest, "] ") == Some(7 + |kind|)
  {
    var front := " query[" + kind;
    var s := front + "] " + rest;
    forall i | 0 <= i < |front|
      ensures !("] " <= s[i..])
    {
      assert s[i..][0] == front[i];
      if i >= 7 {
        assert front[i] in kind;
      }
    }
    FindFirst(front, "] ", rest);
  }

  /**
   The name is read back from every line of the form dnsmasq logs, `… query[A] name from …`, whose
   earlier fields do not look like one.
   */
  lemma QueryIsReadBack(stamp: string, kind: string, name: string, after: string)
    requires IsWord(name)
    requires ']' !in kind
    requires var line := stamp + " query[" + (kind + "] " + (name + " " + after));
      forall i :: 0 <= i < |stamp| ==> !(" query[" <= line[i..])
    ensures Queried(stamp + " query[" + (kind + "] " + (name + " " + after))) == Some(name)
  {
    var rest := name + " " + after;
    var line := stamp + " query[" + (kind + "] " + rest);
    FindFirst(stamp, " query[", kind + "] " + rest);
    assert line[|stamp|..] == " query[" + kind + "] " + rest;
    FieldEnds(kind, rest);
    assert line[|stamp|..][7 + |kind| + 2..] == rest;
    FirstWord(name, after);
  }

  // ---- A block is this computer's own answer ----

  lemma {:induction false} IndexOfIs(words: seq<string>, w: string, i: nat)
    requires i < |words| && words[i] == w && w !in words[..i]
    ensures IndexOf(words, w) == Some(i)
  {
    if i > 0 {
      assert words[0] == words[..i][0];
      assert words[1..][..i - 1] == words[..i][1..];
      IndexOfIs(words[1..], w, i - 1);
    }
  }

  lemma {:induction false} IndexOfMeans(words: seq<string>, w: string)
    ensures var i := IndexOf(words, w);
      if i.Some? then i.value < |words| && words[i.value] == w && w !in words[..i.value] else w !in words
  {
    if words != [] && words[0] != w {
      IndexOfMeans(words[1..], w);
      var i := IndexOf(words[1..], w);
      if i.Some? {
        assert words[..i.value + 1] == [words[0]] + words[1..][..i.value];
      }
    }
  }

  /** The first word `config` of the line answers `name` with the blocked address. */
  predicate AnswersBlocked(words: seq<string>, i: nat, name: string) {
    && i + 3 < |words| && words[i] == "config" && "config" !in words[..i]
    && words[i + 1] == name && words[i + 2] == "is" && words[i + 3] in ["0.0.0.0", "::"]
  }

  /** A line blocks a name exactly when this computer's own rules (`config`) answer it so: never what an upstream replied, or a cache. */
  lemma BlockedNameIff(line: string, words: seq<string>, name: string)
    requires words == Words(line)
    ensures BlockedName(line) == Some(name) <==> exists i: nat :: AnswersBlocked(words, i, name)
  {
    IndexOfMeans(words, "config");
    var first := IndexOf(words, "config");
    if BlockedName(line) == Some(name) {
      assert AnswersBlocked(words, first.value, name);
    }
    if i: nat :| AnswersBlocked(words, i, name) {
      IndexOfIs(words, "config", i);
      assert BlockedName(line) == BlockedAt(words, i);
    }
  }

  /** The words answer a name as blocked that a person looked up, `n` in small letters without its trailing dots. */
  ghost predicate CountsAsBlock(words: seq<string>, own: string -> bool, n: string) {
    exists i: nat, name ::
      AnswersBlocked(words, i, name) && !own(TrimDots(name)) && n == Lower(TrimDots(name)) && '.' in n
  }

  /** A line with no query in it counts for a name exactly when it blocks it, a person made the lookup and the name has a dot; never for a site. */
  lemma BlockIsCountedIff(line: string, words: seq<string>, own: string -> bool, n: string)
    requires words == Words(line) && Queried(line).None?
    ensures !ReadLine(line, own).Visit?
    ensures ReadLine(line, own) == Blocked(n) <==> CountsAsBlock(words, own, n)
  {
    var found := BlockedName(line);
    if found.Some? {
      BlockedNameIff(line, words, found.value);
    }
    if i: nat, name :| AnswersBlocked(words, i, name) && !own(TrimDots(name)) && n == Lower(TrimDots(name)) && '.' in n {
      BlockedNameIff(line, words, name);
    }
  }

  /** Small letters are ASCII's: only `A` (65) to `Z` (90) change, each to what is 32 on. */
  lemma {:induction false} LowerMeans(s: string, i: nat)
    requires i < |s|
    ensures var (c, l) := (s[i] as int, Lower(s)[i] as int); l == if c < 65 || c > 90 then c else c + 32
  {
  }

  // ---- The words of a line ----

  lemma {:induction false} BlanksAreSkipped(s: string)
    requires forall c <- s :: IsSpace(c)
    ensures Words(s) == []
  {
    if s == "" {
    } else {
      assert s[0] in s;
      BlanksAreSkipped(s[1..]);
    }
  }

  lemma {:induction false} WordLengthOfParts(a: string, b: string)
    ensures WordLength(a + " " + b) == WordLength(a)
  {
    if a == "" || IsSpace(a[0]) {
    } else {
      assert (a + " " + b)[1..] == a[1..] + " " + b;
      WordLengthOfParts(a[1..], b);
    }
  }

  lemma {:induction false} WordsOfParts(a: string, b: string)
    ensures Words(a + " " + b) == Words(a) + Words(b)
    decreases |a|
  {
    var s := a + " " + b;
    if a == "" {
      assert s[1..] == b;
    } else if IsSpace(a[0]) {
      assert s[1..] == a[1..] + " " + b;
      WordsOfParts(a[1..], b);
    } else {
      var n := WordLength(a);
      WordLengthOfParts(a, b);
      assert s[..n] == a[..n] && s[n..] == a[n..] + " " + b;
      WordsOfParts(a[n..], b);
    }
  }

  lemma {:induction false} WordIsItself(w: string)
    requires IsWord(w)
    ensures Words(w) == [w]
  {
    var all := w + " ";
    WordLengthIs(w, "");
    WordLengthOfParts(w, "");
    assert all == w + " " + "" && w[..|w|] == w && w[|w|..] == "";
  }

  lemma WordsAndOne(a: string, w: string)
    requires IsWord(w)
    ensures Words(a + " " + w) == Words(a) + [w]
  {
    WordsOfParts(a, w);
    WordIsItself(w);
  }

  lemma AnswerIsFound(front: seq<string>, name: string, address: string)
    requires "config" !in front && address in ["0.0.0.0", "::"]
    ensures AnswersBlocked(front + ["config"] + [name] + ["is"] + [address], |front|, name)
  {
    assert (front + ["config"] + [name] + ["is"] + [address])[..|front|] == front;
  }

  lemma WordsAndFour(a: string, p: string, q: string, r: string, t: string)
    requires IsWord(p) && IsWord(q) && IsWord(r) && IsWord(t)
    ensures Words(a + " " + p + " " + q + " " + r + " " + t) == Words(a) + [p] + [q] + [r] + [t]
  {
    WordsAndOne(a, p);
    WordsAndOne(a + " " + p, q);
    WordsAndOne(a + " " + p + " " + q, r);
    WordsAndOne(a + " " + p + " " + q + " " + r, t);
  }

  lemma FixedWords(address: string)
    requires address in ["0.0.0.0", "::"]
    ensures IsWord("config") && IsWord("is") && IsWord(address)
  {
  }

  /** A block is read back from every line of the form dnsmasq logs, `… config name is 0.0.0.0`. */
  lemma BlockIsReadBack(stamp: string, name: string, address: string)
    requires IsWord(name)
    requires address in ["0.0.0.0", "::"] && "config" !in Words(stamp)
    ensures BlockedName(stamp + " " + "config" + " " + name + " " + "is" + " " + address) == Some(name)
  {
    var line := stamp + " " + "config" + " " + name + " " + "is" + " " + address;
    var front := Words(stamp);
    FixedWords(address);
    WordsAndFour(stamp, "config", name, "is", address);
    AnswerIsFound(front, name, address);
    BlockedNameIff(line, front + ["config"] + [name] + ["is"] + [address], name);
  }

  lemma {:induction false} FindNone(s: string, pattern: string)
    requires pattern != "" && forall i :: 0 <= i < |s| ==> !(pattern <= s[i..])
    ensures Find(s, pattern).None?
  {
    if s == "" {
    } else {
      assert s[0..] == s;
      forall i | 0 <= i < |s| - 1
        ensures !(pattern <= s[1..][i..])
      {
        assert s[1..][i..] == s[i + 1..];
      }
      FindNone(s[1..], pattern);
    }
  }

  /** It counts for that name, in small letters without trailing dots, exactly when a person made the lookup and it has a dot. */
  lemma BlockIsCounted(line: string, stamp: string, name: string, address: string, own: string -> bool)
    requires IsWord(name)
    requires address in ["0.0.0.0", "::"] && "config" !in Words(stamp)
    requires line == stamp + " " + "config" + " " + name + " " + "is" + " " + address
    requires forall i :: 0 <= i < |line| ==> !(" query[" <= line[i..])
    ensures ReadLine(line, own) ==
      if !own(TrimDots(name)) && '.' in Lower(TrimDots(name)) then Blocked(Lower(TrimDots(name))) else Nothing
  {
    FindNone(line, " query[");
    BlockIsReadBack(stamp, name, address);
  }

  lemma QueriedIsRead(line: string, name: string, own: string -> bool)
    requires Queried(line) == Some(name)
    ensures ReadLine(line, own) ==
      if !own(TrimDots(name)) && '.' in Registrable(name) then Visit(Registrable(name)) else Nothing
  {
  }

  /** A lookup that a person made counts for its site, once it has one; one that no person made counts for nothing. */
  lemma QueryIsCounted(stamp: string, kind: string, name: string, after: string, own: string -> bool)
    requires IsWord(name)
    requires ']' !in kind
    requires var line := stamp + " query[" + (kind + "] " + (name + " " + after));
      forall i :: 0 <= i < |stamp| ==> !(" query[" <= line[i..])
    ensures var fact := ReadLine(stamp + " query[" + (kind + "] " + (name + " " + after)), own);
      && (fact.Visit? <==> !own(TrimDots(name)) && '.' in Registrable(name))
      && (fact.Visit? ==> fact.site == Registrable(name) == Registrable(fact.site))
      && !fact.Blocked?
  {
    var line := stamp + " query[" + (kind + "] " + (name + " " + after));
    QueryIsReadBack(stamp, kind, name, after);
    assert Queried(line) == Some(name);
    QueriedIsRead(line, name, own);
    RegistrableIsStable(name);
  }
}
