/** Cleaning a request path in place: //, /./ and /../ become /. */
module CleanPath {

  const NUL: char := '\0'

  /** The length of what is dropped at the start of a text behind a slash: "/", "./" or "../". */
  function DropLength(t: string): (n: nat)
    ensures n <= |t| && n <= 3
  {
    if |t| > 0 && t[0] == '/' then 1
    else if |t| > 1 && t[0] == '.' && t[1] == '/' then 2
    else if |t| > 2 && t[0] == '.' && t[1] == '.' && t[2] == '/' then 3
    else 0
  }

  predicate Dropped(t: string) { DropLength(t) > 0 }

  /** What follows a slash, without what is dropped there. */
  function Skip(t: string): (r: string)
    ensures |r| <= |t| && !Dropped(r)
    decreases |t|
  {
    if Dropped(t) then Skip(t[DropLength(t)..]) else t
  }

  function Clean(s: string): (r: string)
    ensures |r| <= |s| && (r == [] <==> s == []) && (s != [] ==> r[0] == s[0])
    decreases |s|
  {
    if s == [] then []
    else if s[0] == '/' then ['/'] + Clean(Skip(s[1..]))
    else [s[0]] + Clean(s[1..])
  }

  // ------------------------------------------------- what cleaning means

  /** The text between slashes, in order; one component more than there are slashes. */
  function Split(s: string): (cs: seq<string>)
    ensures cs != []
  {
    if s == [] then [""]
    else if s[0] == '/' then [""] + Split(s[1..])
    else
      var cs := Split(s[1..]);
      [[s[0]] + cs[0]] + cs[1..]
  }

  function Join(cs: seq<string>): string
    requires cs != []
  {
    if |cs| == 1 then cs[0] else cs[0] + "/" + Join(cs[1..])
  }

  predicate IsDots(c: string) { c == "" || c == "." || c == ".." }

  /** All components but those that are empty, "." or ".." and have a component behind them. */
  function Inner(cs: seq<string>): (r: seq<string>)
    requires cs != []
    ensures r != []
  {
    if |cs| == 1 then cs
    else if IsDots(cs[0]) then Inner(cs[1..])
    else [cs[0]] + Inner(cs[1..])
  }

  /** The components that stay: the first always does. */
  function Kept(cs: seq<string>): (r: seq<string>)
    requires cs != []
    ensures r != []
  {
    if |cs| == 1 then cs else [cs[0]] + Inner(cs[1..])
  }

  lemma {:induction false} FirstComponent(s: string)
    ensures '/' !in Split(s)[0]
    ensures |Split(s)| == 1 <==> '/' !in s
    ensures |Split(s)| == 1 ==> Split(s)[0] == s
    ensures |Split(s)| > 1 ==> Split(s)[0] + "/" <= s && Split(s)[1..] == Split(s[|Split(s)[0]| + 1..])
  {
    if s != [] {
      assert s == [s[0]] + s[1..];
      if s[0] == '/' {
        assert Split(s)[0] == "" && Split(s)[1..] == Split(s[1..]);
      } else {
        FirstComponent(s[1..]);
        FirstLetter(s);
        var n := |Split(s[1..])[0]|;
        assert |s[1..]| > n ==> s[1..][n + 1..] == s[n + 2..];
        hide Split;
      }
    }
  }

  lemma FirstLetter(s: string)
    requires s != [] && s[0] != '/'
    ensures Split(s)[0] == [s[0]] + Split(s[1..])[0] && Split(s)[1..] == Split(s[1..])[1..]
    ensures |Split(s)| == |Split(s[1..])|
  {
  }

  /** Dropping a prefix is dropping its component and the slash. */
  lemma DroppedIsDots(t: string)
    ensures Dropped(t) <==> |Split(t)| > 1 && IsDots(Split(t)[0])
    ensures Dropped(t) ==> DropLength(t) == |Split(t)[0]| + 1
  {
    FirstComponent(t);
    if t != [] && t[0] == '.' {
      FirstLetter(t);
      FirstComponent(t[1..]);
      if |t| > 1 && t[1] == '.' {
        FirstLetter(t[1..]);
        FirstComponent(t[2..]);
      }
    }
  }

  lemma {:induction false} SkipIsInner(t: string)
    ensures Inner(Split(t)) == Inner(Split(Skip(t)))
    decreases |t|
  {
    if Dropped(t) {
      DroppedIsDots(t);
      FirstComponent(t);
      SkipIsInner(t[DropLength(t)..]);
    }
  }

  /** The cleaned path is the components that stay, joined again. */
  lemma {:induction false} CleanIsKept(s: string)
    ensures Clean(s) == Join(Kept(Split(s)))
    decreases |s|
  {
    if s != [] {
      hide Clean, Skip, Split, Inner, Kept, Join;
      CleanStep(s);
      if s[0] == '/' {
        CleanIsKept(Skip(s[1..]));
        SlashKept(s);
      } else {
        CleanIsKept(s[1..]);
        LetterKept(s);
      }
    } else {
      assert Split(s) == [""];
    }
  }

  lemma SlashKept(s: string)
    requires s != [] && s[0] == '/'
    ensures Join(Kept(Split(s))) == ['/'] + Join(Kept(Split(Skip(s[1..]))))
  {
    var t := Skip(s[1..]);
    SkipIsInner(s[1..]);
    DroppedIsDots(t);
    hide Skip, Join;
    assert Split(s) == [""] + Split(s[1..]);
    assert Inner(Split(t)) == Kept(Split(t));
    assert Kept(Split(s)) == [""] + Kept(Split(t));
    JoinFirstEmpty(Kept(Split(t)));
  }

  lemma JoinFirstEmpty(cs: seq<string>)
    requires cs != []
    ensures Join([""] + cs) == ['/'] + Join(cs)
  {
    assert ([""] + cs)[1..] == cs;
  }

  lemma LetterKept(s: string)
    requires s != [] && s[0] != '/'
    ensures Join(Kept(Split(s))) == [s[0]] + Join(Kept(Split(s[1..])))
  {
    FirstLetter(s);
    hide Split, Join, Inner;
    var cs := Split(s[1..]);
    assert Kept(Split(s)) == [[s[0]] + Kept(cs)[0]] + Kept(cs)[1..];
    JoinFirst(s[0], Kept(cs));
  }

  lemma JoinFirst(c: char, cs: seq<string>)
    requires cs != []
    ensures Join([[c] + cs[0]] + cs[1..]) == [c] + Join(cs)
  {
  }

  // ------------------------------------------------- clean paths

  /** The path has //, /./ or /../ somewhere. */
  predicate Unclean(s: string) {
    exists i :: 0 <= i < |s| && s[i] == '/' && Dropped(s[i + 1..])
  }

  lemma UncleanCons(c: char, t: string)
    ensures Unclean([c] + t) <==> (c == '/' && Dropped(t)) || Unclean(t)
  {
    var s := [c] + t;
    assert s[0] == c && s[1..] == t;
    if Unclean(t) {
      var i :| 0 <= i < |t| && t[i] == '/' && Dropped(t[i + 1..]);
      assert s[i + 1] == '/' && s[i + 2..] == t[i + 1..];
    }
    if Unclean(s) {
      var i :| 0 <= i < |s| && s[i] == '/' && Dropped(s[i + 1..]);
      if i > 0 { assert t[i - 1] == '/' && t[i..] == s[i + 1..]; }
    }
  }

  /** Cleaning does not change whether something is dropped at the start. */
  lemma DroppedSame(t: string)
    ensures Dropped(Clean(t)) == Dropped(t)
  {
    if t != [] && t[0] == '.' {
      CleanTail(t);
      if |t| > 1 && t[1] == '.' { CleanTail(t[1..]); }
    }
  }

  lemma CleanTail(t: string)
    requires t != [] && t[0] != '/'
    ensures Clean(t) == [t[0]] + Clean(t[1..]) && Clean(t)[1..] == Clean(t[1..])
  {
  }

  /** No //, /./ or /../ is left. */
  lemma {:induction false} CleanedIsClean(s: string)
    ensures !Unclean(Clean(s))
    decreases |s|
  {
    if s != [] {
      var t := if s[0] == '/' then Skip(s[1..]) else s[1..];
      CleanedIsClean(t);
      DroppedSame(t);
      UncleanCons(s[0], Clean(t));
      assert Clean(s) == [s[0]] + Clean(t);
    }
  }

  lemma {:induction false} CleanStays(s: string)
    requires !Unclean(s)
    ensures Clean(s) == s
  {
    if s != [] {
      assert s == [s[0]] + s[1..];
      UncleanCons(s[0], s[1..]);
      CleanStays(s[1..]);
    }
  }

  /** A path is left as it is exactly when it has no //, /./ or /../; so cleaning twice is
      cleaning once. */
  lemma CleanIsIdempotent(s: string)
    ensures Clean(s) == s <==> !Unclean(s)
    ensures Clean(Clean(s)) == Clean(s)
  {
    CleanedIsClean(s);
    CleanStays(Clean(s));
    if !Unclean(s) { CleanStays(s); }
  }

  // ------------------------------------------------- in place

  /** clean_pathname, on the C string of length `n` at the start of `a`.  What lies behind the
      new end of the string is not written to. */
  method CleanPathname(a: array<char>, ghost n: nat)
    requires n < a.Length && a[n] == NUL && NUL !in a[..n]
    modifies a
    ensures var t := Clean(old(a[..n]));
      && |t| <= n && a[..|t|] == t && a[|t|] == NUL
      && forall i :: |t| < i < a.Length ==> a[i] == old(a[i])
  {
    ghost var s := a[..n];
    var cleanpath, pathname := 0, 0;
    assert s[0..] == s && a[..0] + Clean(s) == Clean(s) && Clean([]) == [];
    hide *;
    while a[pathname] != NUL
      invariant cleanpath <= pathname <= n
      invariant forall i :: cleanpath <= i < a.Length ==> a[i] == old(a[i])
      invariant a[..cleanpath] + Clean(s[pathname..]) == Clean(s)
      decreases n - pathname
    {
      pathname := CopyOne(a, pathname, cleanpath, s);
      cleanpath := cleanpath + 1;
    }
    assert s[pathname..] == [];
    a[cleanpath] := NUL;
    assert a[..cleanpath] == Clean(s);
  }

  /** One turn of the outer loop: the string at `pathname` is the rest of `s`. */
  method CopyOne(a: array<char>, start: nat, cleanpath: nat, ghost s: string) returns (pathname: nat)
    requires cleanpath <= start < |s| < a.Length && a[|s|] == NUL
    requires forall i :: start <= i < |s| ==> a[i] == s[i] != NUL
    modifies a
    ensures start < pathname <= |s|
    ensures forall i :: cleanpath < i < a.Length ==> a[i] == old(a[i])
    ensures a[..cleanpath + 1] + Clean(s[pathname..]) == old(a[..cleanpath]) + Clean(s[start..])
  {
    hide *;
    ghost var t := s[start..];
    CleanStep(t);
    var c := a[start];
    pathname := start + 1;
    if c == '/' {
      pathname := SkipAll(a, pathname, t[1..]);
      c := '/';
    }
    assert s[pathname..] == if t[0] == '/' then Skip(t[1..]) else t[1..];
    AppendOne(a[..cleanpath], c, Clean(s[pathname..]));
    Put(a, cleanpath, c);
  }

  method Put(a: array<char>, at: nat, c: char)
    requires at < a.Length
    modifies a
    ensures a[..at + 1] == old(a[..at]) + [c] && forall i :: at < i < a.Length ==> a[i] == old(a[i])
  {
    a[at] := c;
  }

  lemma AppendOne(a: string, c: char, b: string)
    ensures a + ([c] + b) == (a + [c]) + b
  {
  }

  lemma CleanStep(s: string)
    ensures Clean(s) == if s == [] then [] else [s[0]] + Clean(if s[0] == '/' then Skip(s[1..]) else s[1..])
  {
  }

  lemma SkipStep(t: string)
    ensures Skip(t) == if Dropped(t) then Skip(t[DropLength(t)..]) else t
  {
  }

  /** The inner loop, on the rest `t` of the string: to the end of everything that is dropped. */
  method SkipAll(a: array<char>, start: nat, ghost t: string) returns (pathname: nat)
    requires start + |t| < a.Length && a[start + |t|] == NUL
    requires forall i :: 0 <= i < |t| ==> a[start + i] == t[i] != NUL
    ensures start <= pathname <= start + |t| && t[pathname - start..] == Skip(t)
  {
    pathname := start;
    hide Skip;
    assert t[0..] == t;
    while true
      invariant start <= pathname <= start + |t| && Skip(t[pathname - start..]) == Skip(t)
      decreases start + |t| - pathname
    {
      ghost var rest := t[pathname - start..];
      SkipStep(rest);
      assert forall i :: 0 <= i < |rest| ==> a[pathname + i] == rest[i] != NUL;
      if a[pathname] == '/' {
        pathname := pathname + 1;
      } else if a[pathname] == '.' && a[pathname + 1] == '/' {
        pathname := pathname + 2;
      } else if a[pathname] == '.' && a[pathname + 1] == '.' && a[pathname + 2] == '/' {
        pathname := pathname + 3;
      } else {
        break;
      }
      assert t[pathname - start..] == rest[DropLength(rest)..];
    }
  }
}
