/** `scripts/samply_to_text.py`: symbol look-up by bisection, memoised stack
    unwinding, and the two counters. */
module ProfileFold {
  import opened Options

  datatype Symbol = Symbol(start: int, end: int, name: string)

  /** A library's known addresses and its symbol ranges, sorted by start */
  datatype Resolver = Resolver(known: map<int, string>, ranges: seq<Symbol>)

  /** The tables of one profile thread, by column */
  datatype Thread = Thread(
    stackPrefix: seq<Option<nat>>, stackFrame: seq<nat>,
    frameFunc: seq<nat>, frameAddress: seq<Option<int>>,
    funcName: seq<nat>, funcResource: seq<Option<int>>,
    resourceLib: seq<Option<int>>, strings: seq<string>)
  {
    /** Every index in the tables is in range. */
    ghost predicate Valid() {
      && |stackFrame| == |stackPrefix| && |frameAddress| == |frameFunc| && |funcResource| == |funcName|
      && (forall i :: 0 <= i < |stackPrefix| && stackPrefix[i].Some? ==> stackPrefix[i].value < |stackPrefix|)
      && (forall i :: 0 <= i < |stackFrame| ==> stackFrame[i] < |frameFunc|)
      && (forall i :: 0 <= i < |frameFunc| ==> frameFunc[i] < |funcName|)
      && (forall i :: 0 <= i < |funcName| ==> funcName[i] < |strings|)
      && (forall i :: 0 <= i < |funcResource| && funcResource[i].Some? ==> funcResource[i].value < |resourceLib|)
    }
  }

  type Resolvers = Option<map<int, Resolver>>

  // ----- symbol look-up -----

  predicate Holds(r: Symbol, address: int) {
    r.start <= address < r.end
  }

  /** The plain look-up: the first range that holds the address */
  function Scan(ranges: seq<Symbol>, address: int): Option<string> {
    if ranges == [] then None
    else if Holds(ranges[0], address) then Some(ranges[0].name)
    else Scan(ranges[1..], address)
  }

  ghost predicate Sorted(ranges: seq<Symbol>) {
    forall i, j :: 0 <= i < j < |ranges| ==> ranges[i].start <= ranges[j].start
  }

  /** No address lies in two ranges. */
  ghost predicate Disjoint(ranges: seq<Symbol>) {
    forall i, j, a :: 0 <= i < j < |ranges| && Holds(ranges[i], a) ==> !Holds(ranges[j], a)
  }

  /** `bisect.bisect_right` on the starts of the ranges */
  method BisectRight(ranges: seq<Symbol>, address: int) returns (pos: nat)
    requires Sorted(ranges)
    ensures pos <= |ranges|
    ensures forall i :: 0 <= i < pos ==> ranges[i].start <= address
    ensures forall i :: pos <= i < |ranges| ==> address < ranges[i].start
  {
    var lo: nat, hi: nat := 0, |ranges|;
    while lo < hi
      invariant lo <= hi <= |ranges|
      invariant forall i :: 0 <= i < lo ==> ranges[i].start <= address
      invariant forall i :: hi <= i < |ranges| ==> address < ranges[i].start
    {
      var mid := (lo + hi) / 2;
      if address < ranges[mid].start {
        hi := mid;
      } else {
        lo := mid + 1;
      }
    }
    pos := lo;
  }

  lemma {:induction false} ScanFinds(ranges: seq<Symbol>, address: int)
    ensures Scan(ranges, address).Some? <==> exists i :: 0 <= i < |ranges| && Holds(ranges[i], address)
    ensures Scan(ranges, address).Some? ==>
        exists i :: 0 <= i < |ranges| && Holds(ranges[i], address) && Scan(ranges, address) == Some(ranges[i].name)
  {
    if ranges != [] && !Holds(ranges[0], address) {
      ScanFinds(ranges[1..], address);
      if Scan(ranges[1..], address).Some? {
        var i :| 0 <= i < |ranges| - 1 && Holds(ranges[1..][i], address) &&
            Scan(ranges[1..], address) == Some(ranges[1..][i].name);
        assert Holds(ranges[i + 1], address);
      } else {
        forall i | 0 <= i < |ranges| ensures !Holds(ranges[i], address) {
          if i > 0 {
            assert !Holds(ranges[1..][i - 1], address);
          }
        }
      }
    }
  }

  /** The range that starts last at or before the address decides. */
  function Bisected(ranges: seq<Symbol>, address: int): Option<string> {
    if ranges == [] then None
    else
      var last := ranges[|ranges| - 1];
      if last.start > address then Bisected(ranges[..|ranges| - 1], address)
      else if address < last.end then Some(last.name) else None
  }

  lemma {:induction false} BisectedIs(ranges: seq<Symbol>, address: int, pos: nat)
    requires pos <= |ranges| && (forall i :: pos <= i < |ranges| ==> address < ranges[i].start)
    requires pos > 0 ==> ranges[pos - 1].start <= address
    ensures Bisected(ranges, address) ==
            if pos > 0 && address < ranges[pos - 1].end then Some(ranges[pos - 1].name) else None
    decreases |ranges|
  {
    if pos < |ranges| {
      BisectedIs(ranges[..|ranges| - 1], address, pos);
    }
  }

  /** The look-up by bisection */
  method LookUp(ranges: seq<Symbol>, address: int) returns (name: Option<string>)
    requires Sorted(ranges)
    ensures name == Bisected(ranges, address)
  {
    var pos := BisectRight(ranges, address);
    BisectedIs(ranges, address, pos);
    if pos > 0 {
      var r := ranges[pos - 1];
      if r.start <= address < r.end {
        return Some(r.name);
      }
    }
    return None;
  }

  /** No range reaches the start of a later one (a row without a size is empty and
      reaches nothing, but it can start inside an earlier range). */
  ghost predicate EndToEnd(ranges: seq<Symbol>) {
    forall i, j :: 0 <= i < j < |ranges| ==> ranges[i].end <= ranges[j].start || ranges[i].end <= ranges[i].start
  }

  lemma {:induction false} BisectedFinds(ranges: seq<Symbol>, address: int)
    requires Bisected(ranges, address).Some?
    ensures exists k :: && 0 <= k < |ranges| && Holds(ranges[k], address)
                        && Bisected(ranges, address) == Some(ranges[k].name)
  {
    var last := ranges[|ranges| - 1];
    if last.start > address {
      var front := ranges[..|ranges| - 1];
      BisectedFinds(front, address);
      var k :| 0 <= k < |front| && Holds(front[k], address) && Bisected(front, address) == Some(front[k].name);
      assert Holds(ranges[k], address);
    } else {
      assert Holds(ranges[|ranges| - 1], address);
    }
  }

  /** The position after the last range that starts at or before the address */
  lemma LastStart(ranges: seq<Symbol>, address: int, j: nat) returns (pos: nat)
    requires j < |ranges| && ranges[j].start <= address
    ensures j < pos <= |ranges| && ranges[pos - 1].start <= address
    ensures forall k :: pos <= k < |ranges| ==> address < ranges[k].start
  {
    pos := |ranges|;
    while ranges[pos - 1].start > address
      invariant j < pos <= |ranges|
      invariant forall k :: pos <= k < |ranges| ==> address < ranges[k].start
      decreases pos
    {
      pos := pos - 1;
    }
  }

  /** On sorted ranges that share no address, bisection agrees with the plain
      look-up at every address exactly when the ranges lie end to end. */
  lemma BisectionIsExact(ranges: seq<Symbol>)
    requires Sorted(ranges) && Disjoint(ranges)
    ensures (forall address :: Bisected(ranges, address) == Scan(ranges, address)) <==> EndToEnd(ranges)
  {
    if EndToEnd(ranges) {
      forall address ensures Bisected(ranges, address) == Scan(ranges, address) {
        ScanFinds(ranges, address);
        if Scan(ranges, address).Some? {
          var i :| 0 <= i < |ranges| && Holds(ranges[i], address) && Scan(ranges, address) == Some(ranges[i].name);
          BisectedIs(ranges, address, i + 1);
        } else if Bisected(ranges, address).Some? {
          BisectedFinds(ranges, address);
        }
      }
    }
    if !EndToEnd(ranges) {
      var i, j :| 0 <= i < j < |ranges| && ranges[j].start < ranges[i].end && ranges[i].start < ranges[i].end;
      HiddenByLater(ranges, i, j);
    }
  }

  /** A range that starts inside an earlier one hides it there. */
  lemma HiddenByLater(ranges: seq<Symbol>, i: nat, j: nat)
    requires Sorted(ranges) && Disjoint(ranges)
    requires i < j < |ranges| && ranges[j].start < ranges[i].end
    ensures Bisected(ranges, ranges[j].start) != Scan(ranges, ranges[j].start)
  {
    var address := ranges[j].start;
    assert Holds(ranges[i], address);
    var pos := LastStart(ranges, address, j);
    BisectedIs(ranges, address, pos);
    assert !Holds(ranges[pos - 1], address);
    ScanFinds(ranges, address);
  }

  /** A symbol without a size inside another one: bisection misses the name that
      the plain look-up finds. */
  lemma SizelessSymbolHides()
    ensures var ranges := [Symbol(0, 10, "f"), Symbol(5, 5, "g")];
            && Sorted(ranges) && Disjoint(ranges) && !EndToEnd(ranges)
            && Scan(ranges, 7) == Some("f") && Bisected(ranges, 7) == None
  {
    var ranges := [Symbol(0, 10, "f"), Symbol(5, 5, "g")];
    assert ranges[0].end > ranges[1].start && ranges[0].end > ranges[0].start;
  }

  ghost predicate AgreeAt(ranges: seq<Symbol>, address: int) {
    Bisected(ranges, address) == Scan(ranges, address)
  }

  predicate IsEdge(ranges: seq<Symbol>, p: int) {
    exists i :: 0 <= i < |ranges| && (ranges[i].start == p || ranges[i].end == p)
  }

  /** On any sorted ranges, whether they share addresses or not, bisection agrees with
      the plain look-up at every address exactly when it does at the finitely many
      addresses where a range starts or ends. */
  lemma AgreementAtEdges(ranges: seq<Symbol>)
    ensures (forall address :: AgreeAt(ranges, address)) <==> forall p :: IsEdge(ranges, p) ==> AgreeAt(ranges, p)
  {
    if forall p :: IsEdge(ranges, p) ==> AgreeAt(ranges, p) {
      forall address ensures AgreeAt(ranges, address) {
        var p := LastEdge(ranges, address);
        SameCell(ranges, p, address);
        if !IsEdge(ranges, p) {
          NothingBefore(ranges, address);
        }
      }
    }
  }

  /** No edge lies in `(p, address]`. */
  ghost predicate SameSide(ranges: seq<Symbol>, p: int, address: int) {
    && p <= address
    && forall i :: 0 <= i < |ranges| ==> !(p < ranges[i].start <= address) && !(p < ranges[i].end <= address)
  }

  /** The last edge at or before the address; the address itself when there is none */
  lemma {:induction false} LastEdge(ranges: seq<Symbol>, address: int) returns (p: int)
    ensures SameSide(ranges, p, address)
    ensures IsEdge(ranges, p)
            || (p == address && forall i :: 0 <= i < |ranges| ==> address < ranges[i].start && address < ranges[i].end)
  {
    if ranges == [] {
      return address;
    }
    var front, last := ranges[..|ranges| - 1], ranges[|ranges| - 1];
    p := LastEdge(front, address);
    assert ranges == front + [last];
    var known := IsEdge(front, p);
    EdgeAppend(front, last, p);
    if last.start <= address && (!known || p < last.start) {
      p, known := last.start, true;
    }
    if last.end <= address && (!known || p < last.end) {
      p := last.end;
    }
    EdgeAppend(front, last, p);
  }

  lemma EdgeAppend(front: seq<Symbol>, last: Symbol, p: int)
    ensures IsEdge(front + [last], p) <==> IsEdge(front, p) || last.start == p || last.end == p
  {
    var all := front + [last];
    assert all[|front|] == last;
    if IsEdge(front, p) {
      var i :| 0 <= i < |front| && (front[i].start == p || front[i].end == p);
      assert all[i] == front[i];
    }
  }

  lemma SameCell(ranges: seq<Symbol>, p: int, address: int)
    requires SameSide(ranges, p, address)
    ensures Bisected(ranges, p) == Bisected(ranges, address) && Scan(ranges, p) == Scan(ranges, address)
  {
    SameScan(ranges, p, address);
    SameBisected(ranges, p, address);
  }

  lemma {:induction false} SameScan(ranges: seq<Symbol>, p: int, address: int)
    requires SameSide(ranges, p, address)
    ensures Scan(ranges, p) == Scan(ranges, address)
  {
    if ranges != [] {
      SameScan(ranges[1..], p, address);
    }
  }

  lemma {:induction false} SameBisected(ranges: seq<Symbol>, p: int, address: int)
    requires SameSide(ranges, p, address)
    ensures Bisected(ranges, p) == Bisected(ranges, address)
  {
    if ranges != [] {
      SameBisected(ranges[..|ranges| - 1], p, address);
    }
  }

  lemma {:induction false} NothingBefore(ranges: seq<Symbol>, address: int)
    requires forall i :: 0 <= i < |ranges| ==> ranges[i].start > address
    ensures Bisected(ranges, address) == None && Scan(ranges, address) == None
  {
    if ranges != [] {
      NothingBefore(ranges[1..], address);
      NothingBefore(ranges[..|ranges| - 1], address);
    }
  }

  /** Two names for one range: bisection gives the last of them, the plain look-up the
      first. */
  lemma AliasesDiffer()
    ensures var ranges := [Symbol(0, 10, "f"), Symbol(0, 10, "g")];
            Sorted(ranges) && Scan(ranges, 5) == Some("f") && Bisected(ranges, 5) == Some("g")
  {
  }

  // ----- frame names -----

  /** Which look-up a name is resolved with */
  datatype Method = Bisection | PlainScan

  function Find(how: Method, ranges: seq<Symbol>, address: int): Option<string> {
    match how
    case Bisection => Bisected(ranges, address)
    case PlainScan => Scan(ranges, address)
  }

  /** The name `resolve_frame_name` gives, with either look-up */
  function FrameName(t: Thread, frame: nat, resolvers: Resolvers, how: Method): string
    requires t.Valid() && frame < |t.frameFunc|
  {
    var func := t.frameFunc[frame];
    var fallback := t.strings[t.funcName[func]];
    if resolvers.None? || t.frameAddress[frame].None? || t.frameAddress[frame].value < 0 then fallback
    else if t.funcResource[func].None? || t.funcResource[func].value < 0 then fallback
    else
      var lib := t.resourceLib[t.funcResource[func].value];
      if lib.None? || lib.value !in resolvers.value then fallback
      else
        var r := resolvers.value[lib.value];
        var address := t.frameAddress[frame].value;
        if address in r.known then r.known[address] else Find(how, r.ranges, address).GetOr(fallback)
  }

  ghost predicate AllSorted(resolvers: Resolvers) {
    resolvers.Some? ==> forall r | r in resolvers.value.Values :: Sorted(r.ranges)
  }

  ghost predicate AllEndToEnd(resolvers: Resolvers) {
    resolvers.Some? ==> forall r | r in resolvers.value.Values ::
      Sorted(r.ranges) && Disjoint(r.ranges) && EndToEnd(r.ranges)
  }

  /** `resolve_frame_name` */
  method ResolveFrameName(t: Thread, frame: nat, resolvers: Resolvers) returns (name: string)
    requires t.Valid() && frame < |t.frameFunc| && AllSorted(resolvers)
    ensures name == FrameName(t, frame, resolvers, Bisection)
  {
    var func := t.frameFunc[frame];
    var fallback := t.strings[t.funcName[func]];
    if resolvers.None? || t.frameAddress[frame].None? || t.frameAddress[frame].value < 0 {
      return fallback;
    }
    var address := t.frameAddress[frame].value;
    var resource := t.funcResource[func];
    if resource.None? || resource.value < 0 {
      return fallback;
    }
    var lib := t.resourceLib[resource.value];
    if lib.None? || lib.value !in resolvers.value {
      return fallback;
    }
    var r := resolvers.value[lib.value];
    if address in r.known {
      return r.known[address];
    }
    assert r in resolvers.value.Values;
    var found := LookUp(r.ranges, address);
    return found.GetOr(fallback);
  }

  lemma FrameNameIsPlain(t: Thread, frame: nat, resolvers: Resolvers)
    requires t.Valid() && frame < |t.frameFunc| && AllEndToEnd(resolvers)
    ensures FrameName(t, frame, resolvers, Bisection) == FrameName(t, frame, resolvers, PlainScan)
  {
    if resolvers.Some? {
      forall r | r in resolvers.value.Values
        ensures forall address :: Bisected(r.ranges, address) == Scan(r.ranges, address)
      {
        BisectionIsExact(r.ranges);
      }
      forall lib | lib in resolvers.value ensures resolvers.value[lib] in resolvers.value.Values {
      }
    }
  }

  // ----- stacks -----

  /** A depth for every stack that is greater than its prefix's: the table is acyclic. */
  ghost predicate Acyclic(t: Thread, depth: seq<nat>) {
    && |depth| == |t.stackPrefix|
    && forall i :: 0 <= i < |t.stackPrefix| && t.stackPrefix[i].Some? ==>
         t.stackPrefix[i].value < |depth| && depth[t.stackPrefix[i].value] < depth[i]
  }

  predicate IsStack(t: Thread, stack: Option<nat>) {
    stack.Some? ==> stack.value < |t.stackPrefix|
  }

  /** The uncached recursion: the names from the root to the stack's own frame */
  ghost function Frames(t: Thread, stack: Option<nat>, resolvers: Resolvers, how: Method, depth: seq<nat>): seq<string>
    requires t.Valid() && Acyclic(t, depth) && IsStack(t, stack)
    decreases if stack.None? then 0 else depth[stack.value] + 1
  {
    if stack.None? then []
    else
      Frames(t, t.stackPrefix[stack.value], resolvers, how, depth)
      + [FrameName(t, t.stackFrame[stack.value], resolvers, how)]
  }

  /** On end-to-end ranges, unwinding with bisection is unwinding with the plain
      look-up, and neither depends on how the table is shown to be acyclic. */
  lemma {:induction false} FramesArePlain(t: Thread, stack: Option<nat>, resolvers: Resolvers, depth: seq<nat>,
      depth': seq<nat>)
    requires t.Valid() && Acyclic(t, depth) && Acyclic(t, depth') && IsStack(t, stack) && AllEndToEnd(resolvers)
    ensures Frames(t, stack, resolvers, Bisection, depth) == Frames(t, stack, resolvers, PlainScan, depth')
    decreases if stack.None? then 0 else depth[stack.value] + 1
  {
    if stack.Some? {
      FramesArePlain(t, t.stackPrefix[stack.value], resolvers, depth, depth');
      FrameNameIsPlain(t, t.stackFrame[stack.value], resolvers);
    }
  }

  /** `";".join(frames)` */
  function Folded(frames: seq<string>): string {
    if frames == [] then ""
    else if |frames| == 1 then frames[0]
    else Folded(frames[..|frames| - 1]) + ";" + frames[|frames| - 1]
  }

  class StackWalker {
    const thread: Thread
    const resolvers: Resolvers
    var cache: map<nat, seq<string>>

    constructor (thread: Thread, resolvers: Resolvers)
      ensures this.thread == thread && this.resolvers == resolvers && cache == map[]
    {
      this.thread := thread;
      this.resolvers := resolvers;
      cache := map[];
    }

    /** Every cached stack is what the uncached recursion gives. */
    ghost predicate Valid(depth: seq<nat>)
      reads this
    {
      && thread.Valid() && AllSorted(resolvers) && Acyclic(thread, depth)
      && forall i | i in cache :: i < |thread.stackPrefix| &&
          cache[i] == Frames(thread, Some(i), resolvers, Bisection, depth)
    }

    /** `stack_frames` */
    method StackFrames(stack: Option<nat>, ghost depth: seq<nat>) returns (frames: seq<string>)
      requires Valid(depth) && IsStack(thread, stack)
      modifies this
      ensures Valid(depth) && frames == Frames(thread, stack, resolvers, Bisection, depth)
      ensures old(cache.Keys) <= cache.Keys
      decreases if stack.None? then 0 else depth[stack.value] + 1
    {
      if stack.None? {
        return [];
      }
      var i := stack.value;
      if i in cache {
        return cache[i];
      }
      var name := ResolveFrameName(thread, thread.stackFrame[i], resolvers);
      var prefix := StackFrames(thread.stackPrefix[i], depth);
      frames := prefix + [name];
      cache := cache[i := frames];
    }

    /** `collapse_thread`: counters are multisets, so their sizes are their totals. */
    method CollapseThread(samples: seq<Option<nat>>, ghost depth: seq<nat>)
      returns (folded: multiset<string>, selfTime: multiset<string>)
      requires Valid(depth) && AllStacks(thread, samples)
      modifies this
      ensures Valid(depth)
      ensures folded == multiset(Stacks(thread, samples, resolvers, depth))
      ensures selfTime == multiset(Leaves(thread, samples, resolvers))
    {
      folded, selfTime := multiset{}, multiset{};
      for k := 0 to |samples|
        invariant Valid(depth) && Counted(thread, samples[..k], resolvers, depth, folded, selfTime)
      {
        folded, selfTime := CountSample(samples, k, folded, selfTime, depth);
      }
      assert samples[..|samples|] == samples;
    }

    /** The body of the loop */
    method CountSample(samples: seq<Option<nat>>, k: nat, folded: multiset<string>, selfTime: multiset<string>,
        ghost depth: seq<nat>)
      returns (folded': multiset<string>, selfTime': multiset<string>)
      requires Valid(depth) && AllStacks(thread, samples) && k < |samples|
      requires Counted(thread, samples[..k], resolvers, depth, folded, selfTime)
      modifies this
      ensures Valid(depth) && Counted(thread, samples[..k + 1], resolvers, depth, folded', selfTime')
    {
      folded', selfTime' := folded, selfTime;
      if samples[k].None? {
        CountsNothing(thread, samples, k, resolvers, depth, folded, selfTime);
        return;
      }
      CountsSample(thread, samples, k, resolvers, depth, folded, selfTime);
      var frames := StackFrames(samples[k], depth);
      if frames != [] {
        folded' := folded + multiset{Folded(frames)};
        selfTime' := selfTime + multiset{frames[|frames| - 1]};
      }
    }
  }

  ghost predicate AllStacks(t: Thread, samples: seq<Option<nat>>) {
    forall k :: 0 <= k < |samples| ==> IsStack(t, samples[k])
  }

  /** The folded stack of every sample that has one, by the uncached recursion */
  ghost function Stacks(t: Thread, samples: seq<Option<nat>>, resolvers: Resolvers, depth: seq<nat>): seq<string>
    requires t.Valid() && Acyclic(t, depth) && AllStacks(t, samples)
  {
    if samples == [] then []
    else
      var last := samples[|samples| - 1];
      Stacks(t, samples[..|samples| - 1], resolvers, depth)
      + if last.None? then [] else [Folded(Frames(t, last, resolvers, Bisection, depth))]
  }

  /** The name of the innermost frame of every sample that has one */
  function Leaves(t: Thread, samples: seq<Option<nat>>, resolvers: Resolvers): seq<string>
    requires t.Valid() && AllStacks(t, samples)
  {
    if samples == [] then []
    else
      var last := samples[|samples| - 1];
      Leaves(t, samples[..|samples| - 1], resolvers)
      + if last.None? then [] else [FrameName(t, t.stackFrame[last.value], resolvers, Bisection)]
  }

  /** The counters count the samples' stacks and innermost names. */
  ghost predicate Counted(t: Thread, samples: seq<Option<nat>>, resolvers: Resolvers, depth: seq<nat>,
      folded: multiset<string>, selfTime: multiset<string>)
    requires t.Valid() && Acyclic(t, depth) && AllStacks(t, samples)
  {
    folded == multiset(Stacks(t, samples, resolvers, depth)) && selfTime == multiset(Leaves(t, samples, resolvers))
  }

  lemma CountsNothing(t: Thread, samples: seq<Option<nat>>, k: nat, resolvers: Resolvers, depth: seq<nat>,
      folded: multiset<string>, selfTime: multiset<string>)
    requires t.Valid() && Acyclic(t, depth) && AllStacks(t, samples) && k < |samples| && samples[k].None?
    requires Counted(t, samples[..k], resolvers, depth, folded, selfTime)
    ensures Counted(t, samples[..k + 1], resolvers, depth, folded, selfTime)
  {
    assert samples[..k + 1][..k] == samples[..k];
  }

  lemma CountsSample(t: Thread, samples: seq<Option<nat>>, k: nat, resolvers: Resolvers, depth: seq<nat>,
      folded: multiset<string>, selfTime: multiset<string>)
    requires t.Valid() && Acyclic(t, depth) && AllStacks(t, samples) && k < |samples| && samples[k].Some?
    requires Counted(t, samples[..k], resolvers, depth, folded, selfTime)
    ensures var frames := Frames(t, samples[k], resolvers, Bisection, depth);
            && frames != []
            && Counted(t, samples[..k + 1], resolvers, depth, folded + multiset{Folded(frames)},
                selfTime + multiset{frames[|frames| - 1]})
  {
    assert samples[..k + 1][..k] == samples[..k];
  }

  function NonNull(samples: seq<Option<nat>>): nat {
    if samples == [] then 0
    else NonNull(samples[..|samples| - 1]) + if samples[|samples| - 1].None? then 0 else 1
  }

  /** The folded total, the self-time total and the number of samples with a stack
      are equal. */
  lemma {:induction false} TotalsAgree(t: Thread, samples: seq<Option<nat>>, resolvers: Resolvers, depth: seq<nat>)
    requires t.Valid() && Acyclic(t, depth) && AllStacks(t, samples)
    ensures |multiset(Stacks(t, samples, resolvers, depth))| == NonNull(samples)
    ensures |multiset(Leaves(t, samples, resolvers))| == NonNull(samples)
  {
    if samples != [] {
      TotalsAgree(t, samples[..|samples| - 1], resolvers, depth);
    }
  }
}
