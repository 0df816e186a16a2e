/**
 * Text of the block-list file, read the way Python reads a text file.
 *
 * A file is opened in text mode with universal newlines: "\r\n" and a lone
 * '\r' are read as '\n'. It is then iterated line by line, each line keeping
 * its '\n' terminator (the last one may lack it); every consumer of the block
 * list keeps the `strip()`-ed, non-blank lines. The lemmas here say when writing a list of
 * entries and reading it back gives the same list, and what appending to a
 * file does to the entries read from it.
 */
module Text {

  /** Python's `str.isspace` for one character: the characters `strip()` removes. */
  predicate IsSpace(c: char) {
    var n := c as int;
    (9 <= n <= 13) || (28 <= n <= 32) || n == 0x85 || n == 0xA0 || n == 0x1680
    || (0x2000 <= n <= 0x200A) || n == 0x2028 || n == 0x2029 || n == 0x202F
    || n == 0x205F || n == 0x3000
  }

  /** `s.rstrip()`: a prefix of `s` that does not end in whitespace. */
  function RStrip(s: string): (r: string)
    ensures r <= s
    ensures r == [] || !IsSpace(r[|r| - 1])
    ensures forall i :: |r| <= i < |s| ==> IsSpace(s[i])
    decreases |s|
  {
    if s != [] && IsSpace(s[|s| - 1]) then RStrip(s[..|s| - 1]) else s
  }

  /** `s.lstrip()`: a suffix of `s` that does not start with whitespace. */
  function LStrip(s: string): (r: string)
    ensures |r| <= |s| && r == s[|s| - |r|..]
    ensures r == [] || !IsSpace(r[0])
    ensures forall i :: 0 <= i < |s| - |r| ==> IsSpace(s[i])
    decreases |s|
  {
    if s != [] && IsSpace(s[0]) then LStrip(s[1..]) else s
  }

  /** `s.strip()`. */
  function Strip(s: string): (r: string)
    ensures r == [] || (!IsSpace(r[0]) && !IsSpace(r[|r| - 1]))
  {
    var t := RStrip(s);
    var r := LStrip(t);
    assert r == [] || r[|r| - 1] == t[|t| - 1] by {
      if r != [] {
        assert r[|r| - 1] == t[|t| - |r|..][|r| - 1];
      }
    }
    r
  }

  /** `strip()` only removes characters: whatever it returns was in the text. */
  lemma StripWithin(s: string)
    ensures forall c :: c in Strip(s) ==> c in s
  {
    var t := RStrip(s);
    var r := Strip(s);
    assert r == t[|t| - |r|..];
    forall c | c in r ensures c in s {
      var k :| 0 <= k < |r| && r[k] == c;
      assert r[k] == t[|t| - |r| + k];
      assert t[|t| - |r| + k] == s[|t| - |r| + k];
    }
  }

  /**
   * `strip()` is exactly a slice of the text: everything before it and after
   * it is whitespace, and (by the contract of `Strip`) it neither starts nor
   * ends with whitespace.
   */
  lemma StripSlice(s: string)
    ensures exists i, j ::
              && 0 <= i <= j <= |s| && Strip(s) == s[i..j]
              && (forall k :: 0 <= k < i ==> IsSpace(s[k]))
              && (forall k :: j <= k < |s| ==> IsSpace(s[k]))
  {
    var i, j := StripBounds(s);
  }

  /** Where the text `strip()` keeps starts and ends. */
  lemma StripBounds(s: string) returns (i: nat, j: nat)
    ensures i <= j <= |s| && Strip(s) == s[i..j]
    ensures forall k :: 0 <= k < i ==> IsSpace(s[k])
    ensures forall k :: j <= k < |s| ==> IsSpace(s[k])
  {
    var t := RStrip(s);
    var r := LStrip(t);
    assert Strip(s) == r;
    i, j := |t| - |r|, |t|;
    assert t == s[..j];
    assert r == t[i..];
    assert t[i..] == s[i..j];
    forall k | 0 <= k < i ensures IsSpace(s[k]) {
      assert s[k] == t[k];
    }
  }

  /**
   * A block-list entry as every reader returns it: non-empty, nothing to
   * strip at either end, and on one line (no '\n', and no '\r', which reading
   * also takes as a line end).
   */
  predicate Clean(e: string) {
    e != [] && !IsSpace(e[0]) && !IsSpace(e[|e| - 1]) && '\n' !in e && '\r' !in e
  }

  /** A file's text that is empty or ends with a line break: an append starts a new line. */
  predicate Terminated(t: string) {
    t == [] || t[|t| - 1] == '\n'
  }

  /** Universal newlines: the text a reader gets, with "\r\n" and every lone '\r' turned into '\n'. */
  function Newlines(s: string): (r: string)
    ensures '\r' !in r
    decreases |s|
  {
    if s == [] then []
    else if s[0] == '\r' then "\n" + Newlines(if |s| > 1 && s[1] == '\n' then s[2..] else s[1..])
    else [s[0]] + Newlines(s[1..])
  }

  /** A text without '\r' is read exactly as written. */
  lemma {:induction false} NewlinesPlain(s: string)
    requires '\r' !in s
    ensures Newlines(s) == s
    decreases |s|
  {
    if s != [] {
      assert s[0] in s;
      assert '\r' !in s[1..] by {
        forall c | c in s[1..] ensures c in s { }
      }
      NewlinesPlain(s[1..]);
      SplitFirst(s);
    }
  }

  /** Translating newlines splits at any point not right after a '\r'. */
  lemma {:induction false} NewlinesAppend(a: string, b: string)
    requires a == [] || a[|a| - 1] != '\r'
    ensures Newlines(a + b) == Newlines(a) + Newlines(b)
    decreases |a|
  {
    if a == [] {
      assert a + b == b;
    } else {
      assert (a + b)[0] == a[0];
      if a[0] == '\r' {
        assert |a| > 1;
        assert (a + b)[1] == a[1];
        var k := if a[1] == '\n' then 2 else 1;
        var rest := a[k..];
        assert (a + b)[k..] == rest + b;
        assert rest == [] || rest[|rest| - 1] == a[|a| - 1];
        NewlinesAppend(rest, b);
        ConcatAssoc("\n", Newlines(rest), Newlines(b));
      } else {
        assert (a + b)[1..] == a[1..] + b;
        assert a[1..] == [] || a[1..][|a[1..]| - 1] == a[|a| - 1];
        NewlinesAppend(a[1..], b);
        ConcatAssoc([a[0]], Newlines(a[1..]), Newlines(b));
      }
    }
  }

  /** A text that ends with a line break is still read as ending with one. */
  lemma {:induction false} NewlinesTerminated(a: string)
    requires Terminated(a)
    ensures Terminated(Newlines(a))
    decreases |a|
  {
    if a != [] {
      var k := if a[0] == '\r' && |a| > 1 && a[1] == '\n' then 2 else 1;
      var rest := a[k..];
      assert rest == [] || rest[|rest| - 1] == a[|a| - 1];
      NewlinesTerminated(rest);
    }
  }

  /**
   * The lines Python yields when iterating over a text file: each ends with
   * its '\n', except possibly the last one.
   */
  function Lines(s: string): (r: seq<string>)
    ensures s == [] <==> r == []
    decreases |s|
  {
    if s == [] then [] else Glue(s[0], Lines(s[1..]))
  }

  /** Put character `c` in front of the lines `rest`: it starts a line of its own or joins the first one. */
  function Glue(c: char, rest: seq<string>): (r: seq<string>)
    ensures r != []
  {
    if c == '\n' || rest == [] then [[c]] + rest
    else [[c] + rest[0]] + rest[1..]
  }

  /** Gluing onto lines that are followed by more lines only touches the first ones. */
  lemma GlueAppend(c: char, rest: seq<string>, more: seq<string>)
    requires c == '\n' || rest != []
    ensures Glue(c, rest + more) == Glue(c, rest) + more
  {
    if c != '\n' {
      assert (rest + more)[0] == rest[0];
      assert (rest + more)[1..] == rest[1..] + more;
    }
  }

  /** A line is non-empty and holds a line break only as its last character. */
  predicate OneLine(l: string) {
    l != [] && '\n' !in l[..|l| - 1]
  }

  /** The stripped, non-blank lines of a sequence of lines, in order. */
  function Keep(ls: seq<string>): (r: seq<string>)
    ensures |r| <= |ls|
  {
    if ls == [] then []
    else
      var e := Strip(ls[0]);
      (if e != [] then [e] else []) + Keep(ls[1..])
  }

  /** `[x.strip() for x in f if x.strip()]` for a file whose text is `t`. */
  function Entries(t: string): (r: seq<string>)
  {
    Keep(Lines(Newlines(t)))
  }

  /** `sep.join(xs)`. */
  function Join(sep: string, xs: seq<string>): (r: string)
  {
    if xs == [] then []
    else if |xs| == 1 then xs[0]
    else xs[0] + sep + Join(sep, xs[1..])
  }

  /** Every element followed by a line break, concatenated. */
  function Terminate(xs: seq<string>): (r: string)
    ensures Terminated(r)
  {
    if xs == [] then [] else xs[0] + "\n" + Terminate(xs[1..])
  }

  /** A non-empty sequence is its first element followed by the rest. */
  lemma SplitFirst<T>(xs: seq<T>)
    requires xs != []
    ensures [xs[0]] + xs[1..] == xs
  {
  }

  /** A non-empty sequence is all but its last element followed by the last. */
  lemma SplitLast<T>(xs: seq<T>)
    requires xs != []
    ensures xs[..|xs| - 1] + [xs[|xs| - 1]] == xs
  {
  }

  /** Appending the first element and then the rest is appending the whole. */
  lemma ConcatCons<T>(a: seq<T>, xs: seq<T>)
    requires xs != []
    ensures (a + [xs[0]]) + xs[1..] == a + xs
  {
  }

  /** Terminating one more element appends it and its line break. */
  lemma {:induction false} TerminateSnoc(xs: seq<string>, x: string)
    ensures Terminate(xs + [x]) == Terminate(xs) + (x + "\n")
    decreases |xs|
  {
    if xs == [] {
      assert Terminate([x]) == x + "\n" + Terminate([]);
    } else {
      assert (xs + [x])[1..] == xs[1..] + [x];
      TerminateSnoc(xs[1..], x);
      assert Terminate(xs + [x]) == xs[0] + "\n" + Terminate(xs[1..] + [x]);
    }
  }

  // ---------------------------------------------------------------------------
  // Lines

  /** Every line Python yields is one line. */
  lemma {:induction false} LinesAreLines(s: string)
    requires '\r' !in s
    ensures forall l :: l in Lines(s) ==> OneLine(l) && '\r' !in l
    decreases |s|
  {
    if s != [] {
      assert s[0] in s;
      assert '\r' !in s[1..] by {
        forall c | c in s[1..] ensures c in s { }
      }
      LinesAreLines(s[1..]);
      var rest := Lines(s[1..]);
      if s[0] != '\n' && rest != [] {
        assert rest[0] in rest;
        var l := [s[0]] + rest[0];
        assert l[..|l| - 1] == [s[0]] + rest[0][..|rest[0]| - 1];
        assert OneLine(l) && '\r' !in l;
        forall x | x in rest[1..] ensures OneLine(x) && '\r' !in x {
          assert x in rest;
        }
      } else {
        assert '\r' !in [s[0]];
      }
    }
  }

  /** Splitting a text after a line break splits its lines at the same place. */
  lemma {:induction false} LinesAppend(a: string, b: string)
    requires Terminated(a)
    ensures Lines(a + b) == Lines(a) + Lines(b)
    decreases |a|
  {
    if a == [] {
      assert a + b == b;
    } else {
      var c, a' := a[0], a[1..];
      assert (a + b)[1..] == a' + b;
      if a' == [] {
        assert c == '\n';
        assert a' + b == b;
        GlueAppend(c, [], Lines(b));
      } else {
        assert a'[|a'| - 1] == a[|a| - 1];
        LinesAppend(a', b);
        GlueAppend(c, Lines(a'), Lines(b));
      }
    }
  }

  /** A text without line breaks is one line. */
  lemma {:induction false} LinesSingle(e: string)
    requires e != [] && '\n' !in e
    ensures Lines(e) == [e]
    decreases |e|
  {
    if |e| > 1 {
      assert '\n' !in e[1..] by {
        forall i | 0 <= i < |e[1..]| ensures e[1..][i] != '\n' {
          assert e[1..][i] == e[i + 1];
        }
      }
      LinesSingle(e[1..]);
      assert [e[0]] + e[1..] == e;
    } else {
      assert e == [e[0]];
    }
  }

  /** A text without line breaks, followed by one, is one line. */
  lemma {:induction false} LinesOfLine(e: string)
    requires '\n' !in e
    ensures Lines(e + "\n") == [e + "\n"]
    decreases |e|
  {
    if e == [] {
      assert e + "\n" == "\n";
    } else {
      assert (e + "\n")[1..] == e[1..] + "\n";
      assert '\n' !in e[1..] by {
        forall i | 0 <= i < |e[1..]| ensures e[1..][i] != '\n' {
          assert e[1..][i] == e[i + 1];
        }
      }
      LinesOfLine(e[1..]);
      assert [e[0]] + (e[1..] + "\n") == e + "\n";
    }
  }

  // ---------------------------------------------------------------------------
  // Strip

  /** A trailing line break does not change what `strip()` returns. */
  lemma StripDropsBreak(e: string)
    ensures Strip(e + "\n") == Strip(e)
  {
    assert (e + "\n")[..|e|] == e;
  }

  /** An entry that is already clean survives `strip()` of its line unchanged. */
  lemma StripOfCleanLine(e: string)
    requires Clean(e)
    ensures Strip(e + "\n") == e && Strip(e) == e
  {
    StripDropsBreak(e);
  }

  /** Every line's stripped text is on one line. */
  lemma StripOfLine(l: string)
    requires OneLine(l) && '\r' !in l
    ensures '\n' !in Strip(l) && '\r' !in Strip(l)
  {
    if l[|l| - 1] == '\n' {
      var e := l[..|l| - 1];
      assert l == e + "\n";
      StripDropsBreak(e);
      StripWithin(e);
    } else {
      StripWithin(l);
      assert '\n' !in l by {
        forall i | 0 <= i < |l| ensures l[i] != '\n' {
          if i < |l| - 1 { assert l[..|l| - 1][i] == l[i]; }
        }
      }
    }
  }

  // ---------------------------------------------------------------------------
  // Entries

  /** Keeping the stripped, non-blank lines distributes over concatenation. */
  lemma {:induction false} KeepAppend(xs: seq<string>, ys: seq<string>)
    ensures Keep(xs + ys) == Keep(xs) + Keep(ys)
    decreases |xs|
  {
    if xs == [] {
      assert xs + ys == ys;
    } else {
      var head := if Strip(xs[0]) != [] then [Strip(xs[0])] else [];
      assert (xs + ys)[0] == xs[0];
      assert (xs + ys)[1..] == xs[1..] + ys;
      assert Keep(xs + ys) == head + Keep(xs[1..] + ys);
      KeepAppend(xs[1..], ys);
      ConcatAssoc(head, Keep(xs[1..]), Keep(ys));
    }
  }

  /** Sequence concatenation regroups, as a step for the solver. */
  lemma ConcatAssoc<T>(a: seq<T>, b: seq<T>, c: seq<T>)
    ensures a + (b + c) == (a + b) + c
  {
  }

  /** Everything a reader of the block list returns is a clean entry. */
  lemma {:induction false} KeepClean(ls: seq<string>)
    requires forall l :: l in ls ==> OneLine(l) && '\r' !in l
    ensures forall e :: e in Keep(ls) ==> Clean(e)
    decreases |ls|
  {
    if ls != [] {
      assert ls[0] in ls;
      StripOfLine(ls[0]);
      KeepClean(ls[1..]);
    }
  }

  lemma EntriesClean(t: string)
    ensures forall e :: e in Entries(t) ==> Clean(e)
  {
    LinesAreLines(Newlines(t));
    KeepClean(Lines(Newlines(t)));
  }

  /** Appending to a file that ends in a line break appends the new text's entries. */
  lemma EntriesAppend(a: string, b: string)
    requires Terminated(a)
    ensures Entries(a + b) == Entries(a) + Entries(b)
  {
    NewlinesAppend(a, b);
    NewlinesTerminated(a);
    LinesAppend(Newlines(a), Newlines(b));
    KeepAppend(Lines(Newlines(a)), Lines(Newlines(b)));
  }

  /** A clean entry written on its own line reads back as exactly that entry. */
  lemma EntriesOfLine(e: string)
    requires Clean(e)
    ensures Entries(e + "\n") == [e]
  {
    assert '\r' !in e + "\n";
    NewlinesPlain(e + "\n");
    LinesOfLine(e);
    StripOfCleanLine(e);
  }

  /** A clean entry on its own line, followed by more text, reads back as that entry and then the rest's entries. */
  lemma EntriesCons(e: string, rest: string)
    requires Clean(e)
    ensures Entries(e + "\n" + rest) == [e] + Entries(rest)
  {
    var head := e + "\n";
    assert Terminated(head);
    EntriesAppend(head, rest);
    EntriesOfLine(e);
  }

  /** Clean entries written one per line read back as the same list. */
  lemma {:induction false} EntriesOfTerminate(xs: seq<string>)
    requires forall e :: e in xs ==> Clean(e)
    ensures Entries(Terminate(xs)) == xs
    decreases |xs|
  {
    if xs != [] {
      assert xs[0] in xs;
      EntriesCons(xs[0], Terminate(xs[1..]));
      EntriesOfTerminate(xs[1..]);
      SplitFirst(xs);
    }
  }

  /** `"\n".join(xs)` is every entry but the last on its own terminated line, then the last one. */
  lemma {:induction false} JoinSplit(xs: seq<string>)
    requires xs != []
    ensures Join("\n", xs) == Terminate(xs[..|xs| - 1]) + xs[|xs| - 1]
    decreases |xs|
  {
    if |xs| == 1 {
      assert xs[..0] == [];
    } else {
      var init := xs[..|xs| - 1];
      var last := xs[|xs| - 1];
      JoinSplit(xs[1..]);
      assert xs[1..][..|xs| - 2] == init[1..];
      assert Join("\n", xs) == xs[0] + "\n" + (Terminate(init[1..]) + last);
      assert Terminate(init) == xs[0] + "\n" + Terminate(init[1..]);
    }
  }

  /** `"\n".join(xs) + "\n"` is the entries, each on its own terminated line. */
  lemma JoinTerminate(xs: seq<string>)
    requires xs != []
    ensures Join("\n", xs) + "\n" == Terminate(xs)
  {
    var init := xs[..|xs| - 1];
    var last := xs[|xs| - 1];
    JoinSplit(xs);
    TerminateSnoc(init, last);
    SplitLast(xs);
  }

  /** A clean entry with no line break after it reads back as exactly that entry. */
  lemma EntriesOfBare(e: string)
    requires Clean(e)
    ensures Entries(e) == [e]
  {
    NewlinesPlain(e);
    LinesSingle(e);
    StripOfCleanLine(e);
  }

  /** Clean entries joined by line breaks, with no final one, still read back as the same list. */
  lemma EntriesOfJoin(xs: seq<string>)
    requires forall e :: e in xs ==> Clean(e)
    ensures Entries(Join("\n", xs)) == xs
  {
    if xs != [] {
      var init, last := xs[..|xs| - 1], xs[|xs| - 1];
      assert last in xs;
      JoinSplit(xs);
      EntriesOfTerminate(init);
      EntriesOfBare(last);
      EntriesConcat(Terminate(init), last, init, [last]);
      SplitLast(xs);
    } else {
      assert Join("\n", xs) == [];
      assert Entries([]) == Keep(Lines(Newlines([])));
    }
  }

  /**
   * Appending a clean line to clean entries joined with no final line break
   * fuses it onto the last entry: the reader sees one entry where two were
   * written.
   */
  lemma EntriesFuse(xs: seq<string>, e: string)
    requires xs != [] && forall x :: x in xs ==> Clean(x)
    requires Clean(e)
    ensures Entries(Join("\n", xs) + e + "\n") == xs[..|xs| - 1] + [xs[|xs| - 1] + e]
  {
    var init, last := xs[..|xs| - 1], xs[|xs| - 1];
    assert last in xs;
    JoinSplit(xs);
    EntriesOfTerminate(init);
    EntriesFuseLast(last, e);
    EntriesConcat(Terminate(init), (last + e) + "\n", init, [last + e]);
    ConcatRegroup(Terminate(init), last, e);
  }

  /** Entries of a text that ends in a line break, followed by another text. */
  lemma EntriesConcat(a: string, b: string, xs: seq<string>, ys: seq<string>)
    requires Terminated(a) && Entries(a) == xs && Entries(b) == ys
    ensures Entries(a + b) == xs + ys
  {
    EntriesAppend(a, b);
  }

  /** Regrouping an unterminated last entry with the text appended after it. */
  lemma ConcatRegroup(t: string, last: string, e: string)
    ensures t + last + e + "\n" == t + ((last + e) + "\n")
  {
  }

  /** Two clean entries written together on one line read back as one entry. */
  lemma EntriesFuseLast(x: string, e: string)
    requires Clean(x) && Clean(e)
    ensures Entries((x + e) + "\n") == [x + e]
  {
    var fused := x + e;
    assert '\n' !in fused && '\r' !in fused by {
      forall i | 0 <= i < |fused| ensures fused[i] != '\n' && fused[i] != '\r' {
        if i < |x| { assert fused[i] == x[i]; } else { assert fused[i] == e[i - |x|]; }
      }
    }
    EntriesOfLine(fused);
  }

  // ---------------------------------------------------------------------------
  // Removing one address

  /** The entries different from `x`, in their original order. */
  function Without(xs: seq<string>, x: string): (r: seq<string>)
    ensures forall e :: e in r <==> e in xs && e != x
    ensures |r| <= |xs|
  {
    if xs == [] then []
    else (if xs[0] != x then [xs[0]] else []) + Without(xs[1..], x)
  }

  /** Removing an address that is not there changes nothing. */
  lemma {:induction false} WithoutAbsent(xs: seq<string>, x: string)
    requires x !in xs
    ensures Without(xs, x) == xs
    decreases |xs|
  {
    if xs != [] {
      assert xs[0] in xs;
      WithoutAbsent(xs[1..], x);
      SplitFirst(xs);
    }
  }

  /** `Without` keeps order: it distributes over concatenation. */
  lemma {:induction false} WithoutAppend(xs: seq<string>, ys: seq<string>, x: string)
    ensures Without(xs + ys, x) == Without(xs, x) + Without(ys, x)
    decreases |xs|
  {
    if xs == [] {
      assert xs + ys == ys;
    } else {
      assert (xs + ys)[0] == xs[0];
      assert (xs + ys)[1..] == xs[1..] + ys;
      WithoutAppend(xs[1..], ys, x);
    }
  }
}
