/** The alias table of the HTTP server: a chained hash table on the first path component that
    has to agree with a scan of all aliases in the order they were added. */
module AliasIndex {
  import opened Options

  newtype Char = c: int | 0 < c < 256 witness 1     // a character of a C string
  type CString = seq<Char>

  const SLASH: Char := 47
  const DOT: Char := 46
  const TABLE_SIZE: nat := 17
  const WORD: nat := 0x1_0000_0000

  /** An alias as its users see it. */
  datatype Entry = Entry(fakename: CString, realname: CString, kind: int)

  // ------------------------------------------------- matching and the scan

  /** The alias covers the uri: it is a prefix of it that ends at a component boundary. */
  predicate Matches(fakename: CString, uri: CString)
    requires fakename != []
  {
    && fakename <= uri
    && (fakename[|fakename| - 1] == SLASH || |uri| == |fakename| || uri[|fakename|] == SLASH)
  }

  predicate AllNamed(es: seq<Entry>) { forall e :: e in es ==> e.fakename != [] }

  /** The first entry that covers the uri. */
  function Scan(es: seq<Entry>, uri: CString): (r: Option<Entry>)
    requires AllNamed(es)
    ensures match r
            case None => forall e :: e in es ==> !Matches(e.fakename, uri)
            case Some(e) => e in es && Matches(e.fakename, uri)
  {
    if es == [] then None
    else if Matches(es[0].fakename, uri) then Some(es[0])
    else Scan(es[1..], uri)
  }

  // ------------------------------------------------- the hash

  /** The characters up to the first slash. */
  function Component(s: CString): (r: CString)
    ensures r <= s && SLASH !in r && (|r| < |s| ==> s[|r|] == SLASH)
  {
    if s == [] || s[0] == SLASH then [] else [s[0]] + Component(s[1..])
  }

  /** The sum of the characters as an unsigned int. */
  function Sum(s: CString): (n: nat)
    ensures n < WORD
  {
    if s == [] then 0 else (Sum(s[..|s| - 1]) + s[|s| - 1] as nat) % WORD
  }

  /** What is hashed of a name: its first character, whatever it is, and the rest of the first
      component. */
  function Hashed(s: CString): CString
    requires s != []
  {
    [s[0]] + Component(s[1..])
  }

  function Bucket(s: CString): (h: nat)
    requires s != []
    ensures h < TABLE_SIZE
  {
    Sum(Hashed(s)) % TABLE_SIZE
  }

  /** get_alias_hash_value; of an empty name it hashes whatever stands behind the terminator. */
  method GetAliasHashValue(file: CString) returns (h: nat)
    ensures h < TABLE_SIZE && (file != [] ==> h == Bucket(file))
  {
    if file == [] {
      var behind: nat := *;
      return behind % TABLE_SIZE;
    }
    var hash: nat := file[0] as nat;
    var index := 1;
    assert file[..1] == [file[0]] && Sum([]) == 0;
    while index < |file| && file[index] != SLASH
      invariant 1 <= index <= |file| && SLASH !in file[1..index]
      invariant hash == Sum(file[..index])
    {
      assert file[..index + 1][..index] == file[..index];
      assert file[1..index + 1] == file[1..index] + [file[index]];
      hash := (hash + file[index] as nat) % WORD;
      index := index + 1;
    }
    ComponentIs(file[1..], index - 1);
    assert file[1..][..index - 1] == file[1..index] && file[..index] == [file[0]] + file[1..index];
    h := hash % TABLE_SIZE;
  }

  lemma {:induction false} ComponentIs(s: CString, k: nat)
    requires k <= |s| && SLASH !in s[..k] && (k < |s| ==> s[k] == SLASH)
    ensures Component(s) == s[..k]
  {
    if k > 0 {
      assert s[..k] == [s[0]] + s[1..][..k - 1];
      ComponentIs(s[1..], k - 1);
    }
  }

  /** An alias other than "/" hashes to the bucket of every uri it covers. */
  lemma CoveredSharesBucket(fakename: CString, uri: CString)
    requires fakename != [] && Matches(fakename, uri) && fakename != [SLASH]
    ensures Bucket(fakename) == Bucket(uri)
  {
    var c := Component(fakename[1..]);
    var k := |c|;
    var f, u := fakename[1..], uri[1..];
    assert uri[..|fakename|] == fakename;
    assert u[..|f|] == f;
    assert u[..k] == f[..k] == c;
    if k < |f| {
      assert u[k] == f[k] == SLASH;
    } else if k < |u| {
      assert fakename[|fakename| - 1] == (if k == 0 then fakename[0] else c[k - 1]);
      assert u[k] == uri[|fakename|];
    }
    ComponentIs(u, k);
  }

  // ------------------------------------------------- the table against the scan

  /** The chain of bucket `h` after the aliases `history`: the test for a duplicate does not
      look at the last element of the chain. */
  function Chain(history: seq<Entry>, h: nat): (c: seq<Entry>)
    requires AllNamed(history)
    ensures AllNamed(c) && forall e :: e in c ==> e in history && Bucket(e.fakename) == h
  {
    if history == [] then []
    else
      var e, c := history[|history| - 1], Chain(history[..|history| - 1], h);
      if Bucket(e.fakename) == h && !Listed(e.fakename, Front(c)) then c + [e] else c
  }

  lemma ChainStep(history: seq<Entry>, e: Entry, h: nat)
    requires AllNamed(history) && e.fakename != []
    ensures AllNamed(history + [e])
    ensures var c := Chain(history, h);
      Chain(history + [e], h) == if Bucket(e.fakename) == h && !Listed(e.fakename, Front(c)) then c + [e] else c
  {
    assert (history + [e])[..|history|] == history;
  }

  function Front(c: seq<Entry>): seq<Entry> { if c == [] then [] else c[..|c| - 1] }

  predicate Listed(fakename: CString, c: seq<Entry>) { exists e :: e in c && e.fakename == fakename }

  /** find_alias looks at one chain. */
  function Find(history: seq<Entry>, uri: CString): Option<Entry>
    requires AllNamed(history)
  {
    if uri == [] then None else Scan(Chain(history, Bucket(uri)), uri)
  }

  lemma {:induction false} ScanSnoc(es: seq<Entry>, e: Entry, uri: CString)
    requires AllNamed(es) && e.fakename != []
    ensures AllNamed(es + [e])
    ensures Scan(es + [e], uri) ==
      if Scan(es, uri).Some? then Scan(es, uri) else if Matches(e.fakename, uri) then Some(e) else None
  {
    if es == [] {
      assert es + [e] == [e];
    } else {
      assert (es + [e])[1..] == es[1..] + [e];
      ScanSnoc(es[1..], e, uri);
    }
  }

  /** The first alias of a name stays the one that is found: adding the name again changes the answer
      for no uri, although the test for a duplicate passes over the last alias of the chain. */
  lemma FirstOfANameStays(history: seq<Entry>, e: Entry, uri: CString)
    requires AllNamed(history) && e.fakename != [] && Listed(e.fakename, history)
    ensures AllNamed(history + [e]) && Find(history + [e], uri) == Find(history, uri)
  {
    if uri != [] {
      var c := Chain(history, Bucket(uri));
      ChainStep(history, e, Bucket(uri));
      if Bucket(e.fakename) == Bucket(uri) && !Listed(e.fakename, Front(c)) {
        ScanSnoc(c, e, uri);
        NamesStay(history, e.fakename);
        var d :| d in c && d.fakename == e.fakename;
        assert Matches(d.fakename, uri) == Matches(e.fakename, uri);
      }
    }
  }

  /** Every name in the history is in the chain of its bucket. */
  lemma {:induction false} NamesStay(history: seq<Entry>, fakename: CString)
    requires AllNamed(history) && fakename != [] && Listed(fakename, history)
    ensures Listed(fakename, Chain(history, Bucket(fakename)))
  {
    var n, b := |history| - 1, Bucket(fakename);
    var before, e := history[..n], history[n];
    assert history == before + [e];
    ChainStep(before, e, b);
    hide Chain, Bucket, Front;
    if Listed(fakename, before) {
      NamesStay(before, fakename);
      var d :| d in Chain(before, b) && d.fakename == fakename;
      assert d in Chain(history, b);
    } else {
      assert e.fakename == fakename;
      NotListed(before, b, fakename);
      assert e in Chain(history, b);
    }
  }

  lemma NotListed(history: seq<Entry>, h: nat, fakename: CString)
    requires AllNamed(history) && !Listed(fakename, history)
    ensures !Listed(fakename, Front(Chain(history, h)))
  {
  }

  /** Without the alias "/" every uri finds the alias a scan would find. */
  lemma {:induction false} FindIsScan(history: seq<Entry>, uri: CString)
    requires AllNamed(history)
    requires forall e :: e in history ==> e.fakename != [SLASH]
    ensures Find(history, uri) == Scan(history, uri)
  {
    if uri == [] {
    } else if history != [] {
      var n := |history| - 1;
      var e, before, h := history[n], history[..n], Bucket(uri);
      assert history == before + [e];
      FindIsScan(before, uri);
      ScanSnoc(before, e, uri);
      if Matches(e.fakename, uri) { CoveredSharesBucket(e.fakename, uri); }
      var c := Chain(before, h);
      if Bucket(e.fakename) == h {
        if Listed(e.fakename, Front(c)) {
          var d :| d in Front(c) && d.fakename == e.fakename;
          assert d in c;
        } else {
          ScanSnoc(c, e, uri);
        }
      }
    }
  }

  // ------------------------------------------------- when the index agrees with the scan

  function Repeat(c: Char, n: nat): (s: CString)
    ensures |s| == n && forall i :: 0 <= i < n ==> s[i] == c
  {
    if n == 0 then [] else Repeat(c, n - 1) + [c]
  }

  function LongPath(n: nat): CString { [SLASH] + Repeat(97, n) }

  /** A path and the same path with one more letter are in different buckets. */
  lemma NextPathMoves(n: nat)
    ensures Bucket(LongPath(n)) != Bucket(LongPath(n + 1))
  {
    var s, t := LongPath(n), LongPath(n + 1);
    assert s[1..] == Repeat(97, n) && t[1..] == Repeat(97, n + 1);
    ComponentIs(s[1..], n);
    ComponentIs(t[1..], n + 1);
    assert Hashed(s) == s && Hashed(t) == t;
    assert t[..|t| - 1] == s && t[|t| - 1] == 97;
    assert Sum(t) == (Sum(s) + 97) % WORD;
    OneMoreLetter(Sum(s));
  }

  lemma OneMoreLetter(x: nat)
    requires x < WORD
    ensures (x + 97) % WORD % TABLE_SIZE != x % TABLE_SIZE
  {
    var y := if x + 97 < WORD then x + 97 else x + 97 - WORD;
    assert (x + 97) % WORD == y;
  }

  lemma LastIsNotSlash(fakename: CString, uri: CString)
    requires 1 < |fakename| && fakename <= uri && uri == LongPath(|uri| - 1)
    ensures fakename[|fakename| - 1] == 97
  {
    assert fakename[|fakename| - 1] == uri[|fakename| - 1];
  }

  /** A path longer than every alias is covered by "/" at most. */
  lemma OnlyTheRootCovers(history: seq<Entry>, n: nat)
    requires AllNamed(history) && forall e :: e in history ==> |e.fakename| <= n
    ensures forall e :: e in history && Matches(e.fakename, LongPath(n)) ==> e.fakename == [SLASH]
  {
    var uri := LongPath(n);
    forall e | e in history && Matches(e.fakename, uri) ensures e.fakename == [SLASH] {
      var k := |e.fakename|;
      assert uri[k] == 97 && e.fakename[0] == uri[0] && |uri| - 1 == n;
      if k > 1 { LastIsNotSlash(e.fakename, uri); }
    }
  }

  lemma {:induction false} LongestName(history: seq<Entry>) returns (n: nat)
    ensures forall e :: e in history ==> |e.fakename| <= n
  {
    if history == [] {
      n := 0;
    } else {
      n := LongestName(history[1..]);
      n := if n < |history[0].fakename| then |history[0].fakename| else n;
    }
  }

  /** A uri that the alias "/" covers and the table does not find. */
  lemma RootIsMissed(history: seq<Entry>) returns (uri: CString)
    requires AllNamed(history) && exists e :: e in history && e.fakename == [SLASH]
    ensures Find(history, uri) == None && Scan(history, uri).Some?
  {
    var n := LongestName(history);
    NextPathMoves(n);
    uri := if Bucket(LongPath(n)) != Bucket([SLASH]) then LongPath(n) else LongPath(n + 1);
    OnlyTheRootCovers(history, n);
    OnlyTheRootCovers(history, n + 1);
    var e :| e in history && e.fakename == [SLASH];
    assert Matches(e.fakename, uri);
  }

  /** The index agrees with the scan of the whole history on every uri exactly when no alias
      is "/". */
  lemma IndexAgreesWithScan(history: seq<Entry>)
    requires AllNamed(history)
    ensures (forall uri: CString :: Find(history, uri) == Scan(history, uri))
      <==> (forall e :: e in history ==> e.fakename != [SLASH])
  {
    if exists e :: e in history && e.fakename == [SLASH] {
      var uri := RootIsMissed(history);
      assert Find(history, uri) != Scan(history, uri);
    } else {
      forall uri: CString ensures Find(history, uri) == Scan(history, uri) {
        FindIsScan(history, uri);
      }
    }
  }

  // ------------------------------------------------- covering, by path components

  /** The components of a path: the texts between its slashes. */
  ghost function Split(s: CString): (parts: seq<CString>)
    ensures parts != []
    decreases |s|
  {
    var c := Component(s);
    if |c| == |s| then [c] else [c] + Split(s[|c| + 1..])
  }

  ghost function Join(parts: seq<CString>): CString
    requires parts != []
  {
    if |parts| == 1 then parts[0] else parts[0] + [SLASH] + Join(parts[1..])
  }

  /** An alias stands for all paths that begin with its components; one that ends in a slash, for those
      that have at least one component more. */
  ghost predicate Covers(fakename: CString, uri: CString) {
    var f, n := Split(fakename), |Split(fakename)| - 1;
    if f[n] == [] then f[..n] < Split(uri) else f <= Split(uri)
  }

  lemma {:induction false} JoinSplit(s: CString)
    ensures Join(Split(s)) == s
    decreases |s|
  {
    var c := Component(s);
    if |c| < |s| {
      JoinSplit(s[|c| + 1..]);
      assert s == c + [SLASH] + s[|c| + 1..];
    }
  }

  lemma {:induction false} JoinSum(a: seq<CString>, b: seq<CString>)
    requires a != [] && b != []
    ensures Join(a + b) == Join(a) + [SLASH] + Join(b)
  {
    assert (a + b)[1..] == a[1..] + b;
    if |a| > 1 { JoinSum(a[1..], b); }
  }

  lemma {:induction false} SplitSum(s: CString, t: CString)
    ensures Split(s + [SLASH] + t) == Split(s) + Split(t)
    decreases |s|
  {
    var c, u := Component(s), s + [SLASH] + t;
    SplitStep(s);
    SplitStep(u);
    hide *;
    assert u[..|c|] == s[..|c|] == c;
    ComponentIs(u, |c|);
    if |c| == |s| {
      assert u[|c| + 1..] == t;
    } else {
      assert u[|c| + 1..] == s[|c| + 1..] + [SLASH] + t;
      SplitSum(s[|c| + 1..], t);
      assert Split(u) == [c] + (Split(s[|c| + 1..]) + Split(t));
    }
  }

  lemma SplitStep(s: CString)
    ensures var c := Component(s); Split(s) == if |c| == |s| then [c] else [c] + Split(s[|c| + 1..])
  {
  }

  lemma SplitEmpty()
    ensures Split([]) == [[]]
  {
  }

  lemma {:induction false} LastPart(s: CString)
    ensures Split(s)[|Split(s)| - 1] == [] <==> s == [] || s[|s| - 1] == SLASH
    decreases |s|
  {
    var c := Component(s);
    if |c| < |s| { LastPart(s[|c| + 1..]); }
  }

  /** Components first and text up to a slash are the same. */
  lemma FirstParts(g: CString, uri: CString)
    ensures Split(g) < Split(uri) <==> g + [SLASH] <= uri
    ensures Split(g) <= Split(uri) <==> g == uri || g + [SLASH] <= uri
  {
    if g + [SLASH] <= uri { Within(g, uri); }
    if Split(g) < Split(uri) { Without(g, uri); }
    if Split(g) == Split(uri) {
      JoinSplit(g);
      JoinSplit(uri);
    }
    assert Split(g) <= Split(uri) <==> Split(g) < Split(uri) || Split(g) == Split(uri);
    hide Split, Join;
  }

  lemma Within(g: CString, uri: CString)
    requires g + [SLASH] <= uri
    ensures Split(g) < Split(uri)
  {
    SplitSum(g, uri[|g| + 1..]);
    assert uri == g + [SLASH] + uri[|g| + 1..];
  }

  lemma Without(g: CString, uri: CString)
    requires Split(g) < Split(uri)
    ensures g + [SLASH] <= uri
  {
    var a, b := Split(g), Split(uri)[|Split(g)|..];
    assert Split(uri) == a + b;
    JoinSum(a, b);
    JoinSplit(g);
    JoinSplit(uri);
  }

  ghost predicate Reaches(fakename: CString, uri: CString)
    requires fakename != []
  {
    var n := |fakename| - 1;
    if fakename[n] == SLASH then fakename[..n] + [SLASH] <= uri else fakename == uri || fakename + [SLASH] <= uri
  }

  /** What an alias covers, and what it matches, in terms of text. */
  lemma CoveringIs(fakename: CString, uri: CString)
    requires fakename != []
    ensures Covers(fakename, uri) <==> Reaches(fakename, uri)
  {
    hide Split;
    var n := |fakename| - 1;
    LastPart(fakename);
    FirstParts(fakename, uri);
    if fakename[n] == SLASH {
      FirstParts(fakename[..n], uri);
      SlashSplit(fakename);
    }
  }

  lemma SlashSplit(fakename: CString)
    requires fakename != [] && fakename[|fakename| - 1] == SLASH
    ensures Split(fakename)[..|Split(fakename)| - 1] == Split(fakename[..|fakename| - 1])
  {
    var g := fakename[..|fakename| - 1];
    assert fakename == g + [SLASH] + [];
    SplitEmpty();
    hide Split;
    SplitSum(g, []);
  }

  lemma MatchingIs(fakename: CString, uri: CString)
    requires fakename != []
    ensures Matches(fakename, uri) <==> Reaches(fakename, uri)
  {
    var n := |fakename| - 1;
    assert fakename[n] == SLASH ==> fakename[..n] + [SLASH] == fakename;
    if fakename <= uri && |uri| == |fakename| { assert fakename == uri; }
    if fakename <= uri && |uri| > |fakename| && uri[|fakename|] == SLASH {
      assert uri[..|fakename| + 1] == fakename + [SLASH];
    }
    if fakename + [SLASH] <= uri { assert uri[|fakename|] == SLASH && uri[..|fakename|] == fakename; }
  }

  /** Matching text up to a slash is covering by components. */
  lemma MatchingIsCovering(fakename: CString, uri: CString)
    requires fakename != []
    ensures Matches(fakename, uri) <==> Covers(fakename, uri)
  {
    CoveringIs(fakename, uri);
    MatchingIs(fakename, uri);
    hide Matches, Covers;
  }

  lemma {:induction false} ScanSum(a: seq<Entry>, b: seq<Entry>, uri: CString)
    requires AllNamed(a) && AllNamed(b)
    ensures AllNamed(a + b)
    ensures Scan(a + b, uri) == if Scan(a, uri).Some? then Scan(a, uri) else Scan(b, uri)
  {
    if a == [] {
      assert a + b == b;
    } else {
      assert (a + b)[1..] == a[1..] + b;
      ScanSum(a[1..], b, uri);
    }
  }

  /** The earliest alias that covers the uri, if one does. */
  ghost predicate Earliest(history: seq<Entry>, uri: CString, r: Option<Entry>) {
    match r
    case None => forall e :: e in history ==> !Covers(e.fakename, uri)
    case Some(e) => exists i :: 0 <= i < |history| && history[i] == e && Covers(e.fakename, uri)
                      && forall j :: 0 <= j < i ==> !Covers(history[j].fakename, uri)
  }

  /** What find_alias finds, without "/": the earliest alias ever added that covers the uri. */
  lemma FindsWhatCovers(history: seq<Entry>, uri: CString)
    requires AllNamed(history) && forall e :: e in history ==> e.fakename != [SLASH]
    ensures Earliest(history, uri, Find(history, uri))
  {
    FindIsScan(history, uri);
    ScansWhatCovers(history, uri);
  }

  lemma {:induction false} ScansWhatCovers(history: seq<Entry>, uri: CString)
    requires AllNamed(history)
    ensures Earliest(history, uri, Scan(history, uri))
  {
    hide Covers, Matches;
    if history != [] {
      MatchingIsCovering(history[0].fakename, uri);
      if Matches(history[0].fakename, uri) {
        assert history[0] == Scan(history, uri).value;
      } else {
        var rest := history[1..];
        ScansWhatCovers(rest, uri);
        if Scan(rest, uri).Some? {
          var i :| 0 <= i < |rest| && rest[i] == Scan(rest, uri).value && Covers(rest[i].fakename, uri)
                   && forall j :: 0 <= j < i ==> !Covers(rest[j].fakename, uri);
          assert history[i + 1] == rest[i];
          forall j | 0 <= j < i + 1 ensures !Covers(history[j].fakename, uri) {
            if j > 0 { assert history[j] == rest[j - 1]; }
          }
        }
      }
    }
  }

  /** An alias that does not end in a slash is found for its own name and for everything below it, and
      never for a name that merely goes on, as far as the other aliases leave it to this one. */
  lemma FoundBelow(before: seq<Entry>, e: Entry, after: seq<Entry>, c: Char, rest: CString)
    requires AllNamed(before + [e] + after) && forall d :: d in before + [e] + after ==> d.fakename != [SLASH]
    requires e.fakename[|e.fakename| - 1] != SLASH
    ensures AllNamed(before) && AllNamed(after)
    ensures Find(before, e.fakename) == None ==> Find(before + [e] + after, e.fakename) == Some(e)
    ensures var uri := e.fakename + [c] + rest;
      Find(before, uri) == None ==> Find(before + [e] + after, uri) == if c == SLASH then Some(e) else Find(after, uri)
  {
    var all := before + [e] + after;
    assert forall d :: d in before ==> d in all;
    assert forall d :: d in after ==> d in all;
    assert e in all;
    hide Find, Scan, AllNamed;
    NextCharacter(e.fakename, c, rest);
    FoundFor(before, e, after, e.fakename);
    FoundFor(before, e, after, e.fakename + [c] + rest);
  }

  lemma NextCharacter(f: CString, c: Char, rest: CString)
    requires f != [] && f[|f| - 1] != SLASH
    ensures Matches(f, f) && (Matches(f, f + [c] + rest) <==> c == SLASH)
  {
    assert (f + [c] + rest)[|f|] == c;
  }

  lemma FoundFor(before: seq<Entry>, e: Entry, after: seq<Entry>, uri: CString)
    requires AllNamed(before) && AllNamed(after) && e.fakename != []
    requires forall d :: d in before + [e] + after ==> d.fakename != [SLASH]
    ensures AllNamed(before + [e] + after)
    ensures Find(before, uri) == None ==>
      Find(before + [e] + after, uri) == if Matches(e.fakename, uri) then Some(e) else Find(after, uri)
  {
    var all := before + [e] + after;
    ScanSnoc(before, e, uri);
    ScanSum(before + [e], after, uri);
    assert (forall d :: d in before ==> d in all) && forall d :: d in after ==> d in all;
    hide Find, Matches, Scan;
    FindIsScan(before, uri);
    FindIsScan(after, uri);
    FindIsScan(all, uri);
  }

  // ------------------------------------------------- the table in memory

  class Alias {
    const entry: Entry
    var next: Alias?

    constructor (entry: Entry)
      ensures this.entry == entry && next == null
    {
      this.entry, next := entry, null;
    }
  }

  function Entries(nodes: seq<Alias>): (es: seq<Entry>)
    ensures |es| == |nodes| && forall i :: 0 <= i < |es| ==> es[i] == nodes[i].entry
  {
    seq(|nodes|, i requires 0 <= i < |nodes| => nodes[i].entry)
  }

  /** The entries of the chains. */
  ghost function Contents(chains: seq<seq<Alias>>): (es: seq<seq<Entry>>)
    ensures |es| == |chains| && forall h :: 0 <= h < |es| ==> es[h] == Entries(chains[h])
  {
    seq(|chains|, h requires 0 <= h < |chains| => Entries(chains[h]))
  }

  /** The chains are those the history leads to. */
  ghost predicate Agrees(es: seq<seq<Entry>>, history: seq<Entry>) {
    && AllNamed(history) && |es| == TABLE_SIZE
    && forall h :: 0 <= h < TABLE_SIZE ==> es[h] == Chain(history, h)
  }

  lemma ContentsOfExtended(chains: seq<seq<Alias>>, h: nat, node: Alias)
    requires h < |chains|
    ensures Contents(chains[h := chains[h] + [node]]) == Contents(chains)[h := Contents(chains)[h] + [node.entry]]
  {
    assert Entries(chains[h] + [node]) == Entries(chains[h]) + [node.entry];
  }

  lemma AddToHistory(es: seq<seq<Entry>>, history: seq<Entry>, e: Entry)
    requires Agrees(es, history) && e.fakename != []
    ensures var h := Bucket(e.fakename);
      Agrees(if Listed(e.fakename, Front(es[h])) then es else es[h := es[h] + [e]], history + [e])
  {
    var b := Bucket(e.fakename);
    var es' := if Listed(e.fakename, Front(es[b])) then es else es[b := es[b] + [e]];
    ChainStep(history, e, 0);
    forall h | 0 <= h < TABLE_SIZE ensures es'[h] == Chain(history + [e], h) { ChainStep(history, e, h); }
  }

  lemma InTheirBuckets(es: seq<seq<Entry>>, history: seq<Entry>)
    requires Agrees(es, history)
    ensures forall h, i :: 0 <= h < TABLE_SIZE && 0 <= i < |es[h]| ==>
      es[h][i].fakename != [] && Bucket(es[h][i].fakename) == h
  {
    forall h, i | 0 <= h < TABLE_SIZE && 0 <= i < |es[h]|
      ensures es[h][i].fakename != [] && Bucket(es[h][i].fakename) == h {
      assert es[h][i] in Chain(history, h);
    }
  }

  lemma FindInChain(es: seq<seq<Entry>>, history: seq<Entry>, uri: CString)
    requires Agrees(es, history)
    ensures uri != [] ==> AllNamed(es[Bucket(uri)]) && Find(history, uri) == Scan(es[Bucket(uri)], uri)
    ensures uri == [] ==> Find(history, uri) == None
  {
  }

  /** No alias covers the empty uri. */
  lemma NothingCovers(es: seq<Entry>)
    requires AllNamed(es)
    ensures Scan(es, []) == None
  {
  }

  /** The nodes of one chain, from its head pointer. */
  ghost predicate Linked(head: Alias?, c: seq<Alias>)
    reads c
  {
    && head == (if c == [] then null else c[0])
    && (forall i {:trigger c[i].next} :: 0 <= i < |c| ==> c[i].next == if i + 1 < |c| then c[i + 1] else null)
  }

  class AliasTable {
    const table: array<Alias?>
    const normalize: CString -> CString     // normalize_path
    ghost var chains: seq<seq<Alias>>
    ghost var nodes: set<Alias>
    ghost var history: seq<Entry>      // every alias add_alias was called with

    ghost predicate Valid()
      reads this, table, nodes
    {
      Chained() && Agrees(Contents(chains), history)
    }

    ghost predicate Chained()
      reads this`chains, this`nodes, table, nodes
    {
      && table.Length == |chains| == TABLE_SIZE
      && (forall h, i :: 0 <= h < TABLE_SIZE && 0 <= i < |chains[h]| ==> chains[h][i] in nodes)
      && (forall h :: 0 <= h < TABLE_SIZE ==> Linked(table[h], chains[h]))
    }

    constructor (normalize: CString -> CString)
      ensures Valid() && fresh(table) && history == [] && nodes == {} && this.normalize == normalize
    {
      this.normalize := normalize;
      table := new Alias?[TABLE_SIZE](_ => null);
      chains := seq(TABLE_SIZE, _ => []);
      nodes, history := {}, [];
    }

    /** A real name that starts with "./" is relative to the current directory. */
    function Stored(realname: CString): CString {
      if |realname| > 1 && realname[0] == DOT && realname[1] == SLASH then normalize(realname[2..]) else realname
    }

    /** add_alias; the program dies on an empty name. */
    method AddAlias(fakename: CString, realname: CString, kind: int) returns (died: bool)
      requires Valid()
      modifies this, table, nodes
      ensures Valid() && fresh(nodes - old(nodes)) && old(nodes) <= nodes
      ensures died == (fakename == [] || realname == [])
      ensures died ==> history == old(history)
      ensures !died ==>
        history == old(history)
          + [Entry(fakename, if [DOT, SLASH] <= realname then normalize(realname[2..]) else realname, kind)]
    {
      if fakename == [] || realname == [] {
        return true;
      }
      died := false;
      HereIs(realname);
      AddEntry(Entry(fakename, Stored(realname), kind));
    }

    lemma HereIs(realname: CString)
      ensures Stored(realname) == if [DOT, SLASH] <= realname then normalize(realname[2..]) else realname
    {
      if |realname| > 1 && realname[0] == DOT && realname[1] == SLASH { assert realname[..2] == [DOT, SLASH]; }
    }

    /** add_alias, for proper names. */
    method AddEntry(e: Entry)
      requires Valid() && e.fakename != []
      modifies this, table, nodes
      ensures Valid() && fresh(nodes - old(nodes)) && old(nodes) <= nodes && history == old(history) + [e]
    {
      hide *;
      var hash, last, duplicate := EndOfChain(e.fakename);
      if duplicate {
        Remember(e);
      } else {
        Insert(hash, last, e);
      }
    }

    /** The chain for a name: its last alias, unless the name is met before it. */
    method EndOfChain(fakename: CString) returns (hash: nat, last: Alias?, duplicate: bool)
      requires Valid() && fakename != []
      ensures Valid() && chains == old(chains) && hash == Bucket(fakename) < |chains|
      ensures duplicate == Listed(fakename, Front(Contents(chains)[hash]))
      ensures !duplicate ==> last == if chains[hash] == [] then null else chains[hash][|chains[hash]| - 1]
    {
      hide *;
      hash := GetAliasHashValue(fakename);
      ChainIsLinked(hash);
      last, duplicate := LastOf(table[hash], chains[hash], fakename);
    }

    /** A duplicate leaves the table as it is. */
    ghost method Remember(e: Entry)
      requires Valid() && e.fakename != [] && Listed(e.fakename, Front(Contents(chains)[Bucket(e.fakename)]))
      modifies this`history
      ensures Valid() && history == old(history) + [e]
    {
      AddToHistory(Contents(chains), history, e);
      hide Agrees;
      history := history + [e];
    }

    /** Allocate the alias, and put it at the end of its chain. */
    method Insert(hash: nat, last: Alias?, e: Entry)
      requires Valid() && e.fakename != [] && hash == Bucket(e.fakename)
      requires !Listed(e.fakename, Front(Contents(chains)[hash]))
      requires last == if chains[hash] == [] then null else chains[hash][|chains[hash]| - 1]
      modifies this, table, nodes
      ensures Valid() && fresh(nodes - old(nodes)) && old(nodes) <= nodes && history == old(history) + [e]
    {
      hide *;
      var node := new Alias(e);
      Append(hash, last, node);
    }

    /** Put a new alias at the end of its chain. */
    method Append(hash: nat, last: Alias?, node: Alias)
      requires Valid() && node !in nodes && node.next == null && node.entry.fakename != []
      requires hash == Bucket(node.entry.fakename)
      requires !Listed(node.entry.fakename, Front(Contents(chains)[hash]))
      requires last == if chains[hash] == [] then null else chains[hash][|chains[hash]| - 1]
      modifies this, table, nodes
      ensures Valid() && nodes == old(nodes) + {node} && history == old(history) + [node.entry]
    {
      Extending(hash, node);
      InChains();
      hide *;
      NotShared(hash, last);
      Put(hash, last, node);
      history := history + [node.entry];
      Validated();
    }

    lemma Extending(hash: nat, node: Alias)
      requires Valid() && node.entry.fakename != [] && hash == Bucket(node.entry.fakename)
      requires !Listed(node.entry.fakename, Front(Contents(chains)[hash]))
      ensures hash < |chains| && Agrees(Contents(chains[hash := chains[hash] + [node]]), history + [node.entry])
    {
      AddToHistory(Contents(chains), history, node.entry);
      ContentsOfExtended(chains, hash, node);
      hide *;
    }

    lemma InChains()
      requires Valid()
      ensures Chained() && |chains| == TABLE_SIZE
    {
    }

    lemma Validated()
      requires Chained() && Agrees(Contents(chains), history)
      ensures Valid()
    {
    }

    method Put(hash: nat, last: Alias?, node: Alias)
      requires Chained() && node !in nodes && node.next == null && hash < TABLE_SIZE
      requires last == if chains[hash] == [] then null else chains[hash][|chains[hash]| - 1]
      requires forall h, i :: 0 <= h < TABLE_SIZE && h != hash && 0 <= i < |chains[h]| ==> chains[h][i] != last
      modifies this`chains, this`nodes, table, nodes
      ensures Chained() && nodes == old(nodes) + {node}
      ensures chains == old(chains)[hash := old(chains)[hash] + [node]]
    {
      hide Linked;
      Link(table, hash, last, node, chains[hash]);
      chains := chains[hash := chains[hash] + [node]];
      nodes := nodes + {node};
    }

    /** No alias is on two chains. */
    lemma NotShared(hash: nat, last: Alias?)
      requires Valid() && hash < TABLE_SIZE
      requires last == if chains[hash] == [] then null else chains[hash][|chains[hash]| - 1]
      ensures forall h, i :: 0 <= h < TABLE_SIZE && h != hash && 0 <= i < |chains[h]| ==> chains[h][i] != last
    {
      var es := Contents(chains);
      InTheirBuckets(es, history);
      hide Agrees, Bucket;
      forall h, i | 0 <= h < TABLE_SIZE && h != hash && 0 <= i < |chains[h]| ensures chains[h][i] != last {
        assert es[h][i] == chains[h][i].entry;
        assert last != null ==> es[hash][|es[hash]| - 1] == last.entry;
      }
    }

    /** find_alias: the alias that a scan of the whole history finds, unless there is a "/". */
    method FindAlias(uri: CString) returns (current: Alias?)
      requires Valid()
      ensures current != null ==> current in nodes && Find(history, uri) == Some(current.entry)
      ensures current == null ==> Find(history, uri) == None
      ensures (forall e :: e in history ==> e.fakename != [SLASH]) ==>
        && Scan(history, uri) == (if current == null then None else Some(current.entry))
        && Earliest(history, uri, if current == null then None else Some(current.entry))
    {
      FindInChain(Contents(chains), history, uri);
      IndexAgreesWithScan(history);
      assert AllNamed(history);
      ScansWhatCovers(history, uri);
      hide *;
      var hash := GetAliasHashValue(uri);
      ChainIsLinked(hash);
      ChainIsNamed(hash);
      current := ScanChain(table[hash], chains[hash], uri);
      if uri == [] { NothingCovers(Entries(chains[hash])); }
    }

    lemma ChainIsNamed(h: nat)
      requires Valid() && h < TABLE_SIZE
      ensures AllNamed(Entries(chains[h]))
    {
      assert Contents(chains)[h] == Entries(chains[h]);
      hide Chain, Linked;
    }

    lemma ChainIsLinked(h: nat)
      requires Valid() && h < TABLE_SIZE
      ensures table.Length == |chains| == |Contents(chains)| == TABLE_SIZE && Linked(table[h], chains[h])
      ensures Contents(chains)[h] == Entries(chains[h]) && forall r :: r in chains[h] ==> r in nodes
    {
    }
  }

  /** Link a new alias behind the last one of a chain. */
  method Link(table: array<Alias?>, hash: nat, last: Alias?, node: Alias, ghost c: seq<Alias>)
    requires hash < table.Length && Linked(table[hash], c) && node !in c && node.next == null
    requires last == if c == [] then null else c[|c| - 1]
    modifies table, if last == null then {} else {last}
    ensures Linked(table[hash], c + [node])
    ensures forall h :: 0 <= h < table.Length && h != hash ==> table[h] == old(table[h])
  {
    if last != null {
      last.next := node;
    } else {
      table[hash] := node;
    }
  }

  /** Walk to the last alias of a chain, unless the name is met on the way; the last alias
      itself is not compared. */
  method LastOf(head: Alias?, ghost c: seq<Alias>, fakename: CString) returns (last: Alias?, duplicate: bool)
    requires Linked(head, c)
    ensures duplicate == Listed(fakename, Front(Entries(c)))
    ensures !duplicate ==> last == if c == [] then null else c[|c| - 1]
  {
    ghost var k := 0;
    last := head;
    duplicate := false;
    if last != null {
      while last.next != null
        invariant 0 <= k < |c| && last == c[k]
        invariant forall i :: 0 <= i < k ==> c[i].entry.fakename != fakename
        decreases |c| - k
      {
        assert c[k].next != null;
        if fakename == last.entry.fakename {         // don't add twice
          assert Entries(c)[k] == Front(Entries(c))[k];
          return last, true;
        }
        last := last.next;
        k := k + 1;
      }
      assert c[k].next == null;
    }
  }

  /** The loop of find_alias over one chain. */
  method ScanChain(head: Alias?, ghost c: seq<Alias>, uri: CString) returns (current: Alias?)
    requires Linked(head, c) && AllNamed(Entries(c))
    ensures current != null ==> current in c
    ensures Scan(Entries(c), uri) == if current == null then None else Some(current.entry)
  {
    ghost var k, es := 0, Entries(c);
    current := head;
    assert es[0..] == es;
    while current != null
      invariant 0 <= k <= |c| && current == if k < |c| then c[k] else null
      invariant AllNamed(es[k..]) && Scan(es, uri) == Scan(es[k..], uri)
      decreases |c| - k
    {
      assert es[k..][0] == current.entry && es[k..][1..] == es[k + 1..];
      assert current.entry in es[k..];
      var fakename := current.entry.fakename;
      var fakeLen := |fakename|;
      if fakeLen <= |uri| && uri[..fakeLen] == fakename
         && (fakename[fakeLen - 1] == SLASH
             || (fakename[fakeLen - 1] != SLASH && (fakeLen == |uri| || uri[fakeLen] == SLASH))) {
        assert Matches(fakename, uri);
        return;
      }
      assert !Matches(fakename, uri);
      current := current.next;
      k := k + 1;
    }
  }
}
