/**
 * Reading a capture file with a packet cap and a time budget, and counting
 * the packets of each source address (detect_ai.py).
 *
 * The packet parser is not modelled: a frame says whether parsing it succeeds
 * and, if so, the source address of its IP layer, if it has one. The wall
 * clock is an input: the elapsed time read before each raw frame.
 */
module Capture {
  import opened Store

  /** One raw record of the capture file, as the parser would see it. */
  datatype Frame = Frame(parses: bool, src: Option<string>)

  /** A frame the stream hands on: it parses and has an IP layer. */
  predicate CarriesIp(f: Frame) {
    f.parses && f.src.Some?
  }

  /** Why the scan ended: the time budget, the packet cap, or the end of the file. */
  datatype Stop = TimeUp | CapReached | Exhausted

  /** The IP-carrying frames among `fs`, in their order. */
  function Carried(fs: seq<Frame>): (r: seq<Frame>)
    ensures forall f :: f in r ==> CarriesIp(f)
    ensures |r| <= |fs|
  {
    if fs == [] then []
    else
      var last := fs[|fs| - 1];
      Carried(fs[..|fs| - 1]) + (if CarriesIp(last) then [last] else [])
  }

  /** `xs` is what is left of `ys` after deleting some of its elements. */
  predicate IsSubsequence<T(==)>(xs: seq<T>, ys: seq<T>)
    decreases |ys|
  {
    xs == [] ||
    (ys != [] &&
      if xs[|xs| - 1] == ys[|ys| - 1] then IsSubsequence(xs[..|xs| - 1], ys[..|ys| - 1])
      else IsSubsequence(xs, ys[..|ys| - 1]))
  }

  /** The stream keeps the frames it yields in the order of the file. */
  lemma {:induction false} CarriedIsSubsequence(fs: seq<Frame>)
    ensures IsSubsequence(Carried(fs), fs)
  {
    if fs != [] {
      var init := fs[..|fs| - 1];
      CarriedIsSubsequence(init);
      var last := fs[|fs| - 1];
      if CarriesIp(last) {
        var r := Carried(fs);
        assert r[..|r| - 1] == Carried(init);
      } else {
        assert Carried(fs) == Carried(init);
        var r := Carried(init);
        if r != [] {
          assert r[|r| - 1] in r;
          assert r[|r| - 1] != last;
        }
      }
    }
  }

  /** One more raw frame adds at most one packet. */
  lemma CarriedStep(fs: seq<Frame>, i: nat)
    requires i < |fs|
    ensures Carried(fs[..i + 1]) == Carried(fs[..i]) + (if CarriesIp(fs[i]) then [fs[i]] else [])
  {
    assert fs[..i + 1][..i] == fs[..i];
  }

  /**
   * After scanning the first `i` raw frames, `packets` holds the IP frames
   * among them and neither stop check fired on any of them.
   */
  ghost predicate Scanned(frames: seq<Frame>, elapsed: seq<real>, maxPackets: int, timeLimit: real, i: nat, packets: seq<Frame>)
    requires |elapsed| == |frames|
  {
    && i <= |frames|
    && packets == Carried(frames[..i])
    && (forall j :: 0 <= j < i ==> elapsed[j] <= timeLimit)
    && (i > 0 ==> |Carried(frames[..i - 1])| < maxPackets)
  }

  /** Scanning one more frame once both checks pass. */
  lemma ScanStep(frames: seq<Frame>, elapsed: seq<real>, maxPackets: int, timeLimit: real, i: nat, packets: seq<Frame>)
    requires |elapsed| == |frames| && i < |frames|
    requires Scanned(frames, elapsed, maxPackets, timeLimit, i, packets)
    requires elapsed[i] <= timeLimit && |packets| < maxPackets
    ensures Scanned(frames, elapsed, maxPackets, timeLimit, i + 1, packets + (if CarriesIp(frames[i]) then [frames[i]] else []))
  {
    CarriedStep(frames, i);
    assert frames[..i + 1][..i] == frames[..i];
  }

  /** The cap bounds what was collected: the cap is only checked before a frame is read. */
  lemma ScanBound(frames: seq<Frame>, elapsed: seq<real>, maxPackets: int, timeLimit: real, i: nat, packets: seq<Frame>)
    requires |elapsed| == |frames|
    requires Scanned(frames, elapsed, maxPackets, timeLimit, i, packets)
    ensures maxPackets >= 0 ==> |packets| <= maxPackets
    ensures maxPackets <= 0 ==> packets == []
    ensures IsSubsequence(packets, frames[..i])
    ensures IsSubsequence(packets, frames)
  {
    if i > 0 {
      CarriedStep(frames, i - 1);
    }
    CarriedIsSubsequence(frames[..i]);
    SubsequenceOfPrefix(packets, frames, i);
  }

  /**
   * The frames the stream yields (`iter_packets_stream`), collected into a
   * list. Before each raw frame it checks the time budget, then the packet
   * cap; a frame that fails to parse is skipped and the scan goes on. Only
   * yielded frames count towards the cap.
   */
  method StreamPackets(frames: seq<Frame>, elapsed: seq<real>, maxPackets: int, timeLimit: real)
    returns (packets: seq<Frame>, scanned: nat, stop: Stop)
    requires |elapsed| == |frames|
    ensures scanned <= |frames|
    ensures packets == Carried(frames[..scanned])
    ensures forall f :: f in packets ==> CarriesIp(f)
    ensures IsSubsequence(packets, frames)
    ensures maxPackets >= 0 ==> |packets| <= maxPackets
    ensures maxPackets <= 0 ==> packets == []
    // no stop check fired before the raw frame where scanning ended
    ensures forall i :: 0 <= i < scanned ==> elapsed[i] <= timeLimit
    ensures scanned > 0 ==> |Carried(frames[..scanned - 1])| < maxPackets
    ensures stop == Exhausted <==> scanned == |frames|
    ensures stop == TimeUp ==> scanned < |frames| && elapsed[scanned] > timeLimit
    ensures stop == CapReached ==> scanned < |frames| && elapsed[scanned] <= timeLimit && |packets| >= maxPackets
  {
    var count := 0;
    var i := 0;
    packets := [];
    stop := Exhausted;
    while i < |frames|
      invariant Scanned(frames, elapsed, maxPackets, timeLimit, i, packets) && count == |packets|
    {
      if elapsed[i] > timeLimit {
        stop := TimeUp;
        break;
      }
      if count >= maxPackets {
        stop := CapReached;
        break;
      }
      ScanStep(frames, elapsed, maxPackets, timeLimit, i, packets);
      var frame := frames[i];
      if frame.parses {
        if frame.src.Some? {
          packets := packets + [frame];
          count := count + 1;
        }
      }
      i := i + 1;
    }
    scanned := i;
    ScanBound(frames, elapsed, maxPackets, timeLimit, scanned, packets);
  }

  /** A subsequence of a prefix is a subsequence of the whole. */
  lemma {:induction false} SubsequenceOfPrefix<T>(xs: seq<T>, ys: seq<T>, n: nat)
    requires n <= |ys| && IsSubsequence(xs, ys[..n])
    ensures IsSubsequence(xs, ys)
    decreases |ys| - n
  {
    if n < |ys| {
      assert ys[..n + 1] == ys[..n] + [ys[n]];
      SubsequenceExtend(xs, ys[..n], ys[n]);
      SubsequenceOfPrefix(xs, ys, n + 1);
    } else {
      assert ys[..n] == ys;
    }
  }

  /** Adding an element at the end of the longer sequence keeps a subsequence one. */
  lemma {:induction false} SubsequenceExtend<T>(xs: seq<T>, ys: seq<T>, y: T)
    requires IsSubsequence(xs, ys)
    ensures IsSubsequence(xs, ys + [y])
    decreases |ys|, 1
  {
    var zs := ys + [y];
    assert zs[..|zs| - 1] == ys;
    if xs != [] && xs[|xs| - 1] == y {
      SubsequenceDropLast(xs, ys);
    }
  }

  /** Deleting the last element of a subsequence leaves a subsequence. */
  lemma {:induction false} SubsequenceDropLast<T>(xs: seq<T>, ys: seq<T>)
    requires xs != [] && IsSubsequence(xs, ys)
    ensures IsSubsequence(xs[..|xs| - 1], ys)
    decreases |ys|, 0
  {
    var init := ys[..|ys| - 1];
    var last := ys[|ys| - 1];
    assert ys == init + [last];
    if xs[|xs| - 1] == last {
      SubsequenceExtend(xs[..|xs| - 1], init, last);
    } else {
      SubsequenceDropLast(xs, init);
      SubsequenceExtend(xs[..|xs| - 1], init, last);
    }
  }

  // ---------------------------------------------------------------------------
  // Per-source counting

  /** The IP source addresses of the packets, in order. */
  function Sources(ps: seq<Frame>): (r: seq<string>)
    ensures |r| <= |ps|
  {
    if ps == [] then []
    else
      var last := ps[|ps| - 1];
      Sources(ps[..|ps| - 1]) + (if last.src.Some? then [last.src.value] else [])
  }

  /** When every packet has an IP layer, there is one source per packet. */
  lemma {:induction false} SourcesOfCarried(ps: seq<Frame>)
    requires forall f :: f in ps ==> CarriesIp(f)
    ensures |Sources(ps)| == |ps|
  {
    if ps != [] {
      assert ps[|ps| - 1] in ps;
      SourcesOfCarried(ps[..|ps| - 1]);
    }
  }

  /** Distinct elements of `s`, in the order of their first occurrence. */
  function FirstSeen(s: seq<string>): (r: seq<string>)
    ensures forall a :: a in r <==> a in s
  {
    if s == [] then []
    else
      var seen := FirstSeen(s[..|s| - 1]);
      var a := s[|s| - 1];
      assert forall x :: x in s <==> x in s[..|s| - 1] || x == a;
      if a in seen then seen else seen + [a]
  }

  /** How many times `a` occurs in `s`. */
  function Occurrences(s: seq<string>, a: string): (n: nat)
    ensures n > 0 <==> a in s
    ensures n <= |s|
  {
    if s == [] then 0
    else Occurrences(s[..|s| - 1], a) + (if s[|s| - 1] == a then 1 else 0)
  }

  /** One more source adds one to its own count and nothing to any other. */
  lemma OccurrencesStep(s: seq<string>, x: string, a: string)
    ensures Occurrences(s + [x], a) == Occurrences(s, a) + (if x == a then 1 else 0)
  {
    assert (s + [x])[..|s|] == s;
  }

  /** No address is listed twice. */
  predicate Distinct(keys: seq<string>) {
    forall i, j :: 0 <= i < j < |keys| ==> keys[i] != keys[j]
  }

  /** The row order lists every source once. */
  lemma {:induction false} FirstSeenDistinct(s: seq<string>)
    ensures Distinct(FirstSeen(s))
  {
    if s != [] {
      FirstSeenDistinct(s[..|s| - 1]);
    }
  }

  /** The sum of the counts of `keys`. */
  function Total(keys: seq<string>, m: map<string, nat>): nat
    requires forall k :: k in keys ==> k in m
  {
    if keys == [] then 0
    else Total(keys[..|keys| - 1], m) + m[keys[|keys| - 1]]
  }

  /** Changing the count of an address not among `keys` leaves their sum alone. */
  lemma {:induction false} TotalFrame(keys: seq<string>, m: map<string, nat>, a: string, v: nat)
    requires forall k :: k in keys ==> k in m
    requires a !in keys
    ensures Total(keys, m[a := v]) == Total(keys, m)
  {
    if keys != [] {
      TotalFrame(keys[..|keys| - 1], m, a, v);
    }
  }

  /** Incrementing the count of an address listed once in `keys` increments the sum. */
  lemma {:induction false} TotalBump(keys: seq<string>, m: map<string, nat>, a: string)
    requires forall k :: k in keys ==> k in m
    requires Distinct(keys)
    requires a in keys
    ensures Total(keys, m[a := m[a] + 1]) == Total(keys, m) + 1
  {
    var init := keys[..|keys| - 1];
    if keys[|keys| - 1] == a {
      assert a !in init;
      TotalFrame(init, m, a, m[a] + 1);
    } else {
      TotalBump(init, m, a);
    }
  }

  /** One more packet adds at most one source. */
  lemma SourcesStep(ps: seq<Frame>, i: nat)
    requires i < |ps|
    ensures Sources(ps[..i + 1]) == Sources(ps[..i]) + (if ps[i].src.Some? then [ps[i].src.value] else [])
  {
    assert ps[..i + 1][..i] == ps[..i];
  }

  /** One more source is appended to the first-seen order only when it is new. */
  lemma FirstSeenStep(s: seq<string>, a: string)
    ensures FirstSeen(s + [a]) == if a in FirstSeen(s) then FirstSeen(s) else FirstSeen(s) + [a]
  {
    assert (s + [a])[..|s|] == s;
  }

  /** The total over one more key adds that key's count. */
  lemma TotalAppend(keys: seq<string>, m: map<string, nat>, a: string)
    requires forall k :: k in keys ==> k in m
    requires a in m
    ensures Total(keys + [a], m) == Total(keys, m) + m[a]
  {
    assert (keys + [a])[..|keys|] == keys;
  }

  /**
   * `order` and `counter` are the result of counting the sources `s`: each
   * address seen has its number of occurrences, the order is that of first
   * occurrence, and the counts add up to the number of sources.
   */
  ghost predicate Counted(order: seq<string>, counter: map<string, nat>, s: seq<string>) {
    && order == FirstSeen(s)
    && (forall a :: a in order <==> a in counter)
    && (forall a :: a in counter ==> counter[a] == Occurrences(s, a))
    && Total(order, counter) == |s|
  }

  /** After one more source `a`, giving `a` its next count keeps every count equal to its number of occurrences. */
  lemma CountsAfter(counter: map<string, nat>, s: seq<string>, a: string, n: nat)
    requires forall x :: x in counter ==> counter[x] == Occurrences(s, x)
    requires n == Occurrences(s, a) + 1
    ensures forall x :: x in counter[a := n] ==> counter[a := n][x] == Occurrences(s + [a], x)
  {
    forall x | x in counter[a := n] ensures counter[a := n][x] == Occurrences(s + [a], x) {
      OccurrencesStep(s, a, x);
    }
  }

  /** A new address counted once raises the total by one. */
  lemma TotalNew(order: seq<string>, counter: map<string, nat>, a: string)
    requires forall k :: k in order ==> k in counter
    requires a !in order
    ensures Total(order + [a], counter[a := 1]) == Total(order, counter) + 1
  {
    TotalFrame(order, counter, a, 1);
    TotalAppend(order, counter[a := 1], a);
  }

  /** Counting a source seen for the first time. */
  lemma CountNew(order: seq<string>, counter: map<string, nat>, s: seq<string>, a: string)
    requires Counted(order, counter, s) && a !in counter
    ensures Counted(order + [a], counter[a := 1], s + [a])
  {
    FirstSeenStep(s, a);
    CountsAfter(counter, s, a, 1);
    TotalNew(order, counter, a);
  }

  /** Counting a source seen before. */
  lemma CountAgain(order: seq<string>, counter: map<string, nat>, s: seq<string>, a: string)
    requires Counted(order, counter, s) && a in counter
    ensures Counted(order, counter[a := counter[a] + 1], s + [a])
  {
    FirstSeenStep(s, a);
    CountsAfter(counter, s, a, counter[a] + 1);
    TotalAgain(s, counter, a);
    assert counter[a := counter[a] + 1].Keys == counter.Keys;
  }

  /** Counting an address already in the row order raises the total by one. */
  lemma TotalAgain(s: seq<string>, counter: map<string, nat>, a: string)
    requires forall k :: k in FirstSeen(s) ==> k in counter
    requires a in FirstSeen(s)
    ensures Total(FirstSeen(s), counter[a := counter[a] + 1]) == Total(FirstSeen(s), counter) + 1
  {
    FirstSeenDistinct(s);
    TotalBump(FirstSeen(s), counter, a);
  }

  /** The row order and the counter after counting the sources of `ps`, one packet at a time. */
  function Tally(ps: seq<Frame>): (seq<string>, map<string, nat>)
  {
    if ps == [] then ([], map[])
    else
      var (order, counter) := Tally(ps[..|ps| - 1]);
      var last := ps[|ps| - 1];
      if last.src.None? then (order, counter)
      else if last.src.value in counter then (order, counter[last.src.value := counter[last.src.value] + 1])
      else (order + [last.src.value], counter[last.src.value := 1])
  }

  /** Counting packet by packet gives, for every prefix, the row order and counts of its sources. */
  lemma {:induction false} TallyCounted(ps: seq<Frame>)
    ensures Counted(Tally(ps).0, Tally(ps).1, Sources(ps))
  {
    if ps != [] {
      var n := |ps| - 1;
      assert ps[..n + 1] == ps;
      TallyCounted(ps[..n]);
      var (order, counter) := Tally(ps[..n]);
      var seen := Sources(ps[..n]);
      SourcesStep(ps, n);
      if ps[n].src.Some? {
        var a := ps[n].src.value;
        if a in counter {
          CountAgain(order, counter, seen, a);
        } else {
          CountNew(order, counter, seen, a);
        }
      } else {
        assert seen + [] == seen;
      }
    }
  }

  /** What a finished count says about the sources it counted. */
  lemma CountedMeans(order: seq<string>, counter: map<string, nat>, s: seq<string>)
    requires Counted(order, counter, s)
    ensures order == FirstSeen(s)
    ensures forall a :: a in counter <==> a in s
    ensures forall a :: a in counter ==> counter[a] == Occurrences(s, a)
    ensures forall a :: a in order <==> a in counter
    ensures Total(order, counter) == |s|
    ensures Distinct(order)
  {
    FirstSeenDistinct(s);
  }

  /**
   * `src_counter`: one count per source address, incremented in packet
   * order. Also returns the order in which addresses were first counted,
   * which is the row order of the table built from the counter.
   */
  method CountSources(packets: seq<Frame>) returns (order: seq<string>, counter: map<string, nat>)
    ensures (order, counter) == Tally(packets)
    ensures order == FirstSeen(Sources(packets))
    ensures forall a :: a in counter <==> a in Sources(packets)
    ensures forall a :: a in counter ==> counter[a] == Occurrences(Sources(packets), a)
    ensures forall a :: a in order <==> a in counter
    ensures Total(order, counter) == |Sources(packets)|
    ensures Distinct(order)
    ensures (forall f :: f in packets ==> CarriesIp(f)) ==> Total(order, counter) == |packets|
  {
    order := [];
    counter := map[];
    var i := 0;
    while i < |packets|
      invariant 0 <= i <= |packets|
      invariant (order, counter) == Tally(packets[..i])
    {
      assert packets[..i + 1][..i] == packets[..i];
      var p := packets[i];
      if p.src.Some? {
        var a := p.src.value;
        if a in counter {
          counter := counter[a := counter[a] + 1];
        } else {
          order := order + [a];
          counter := counter[a := 1];
        }
      }
      i := i + 1;
    }
    assert packets[..i] == packets;
    TallyCounted(packets);
    CountedMeans(order, counter, Sources(packets));
    if forall f :: f in packets ==> CarriesIp(f) {
      SourcesOfCarried(packets);
    }
  }
}
