/** What the folded stacks of `scripts/samply_to_text.py` say about the samples. */
module ProfileLaws {
  import opened Options
  import opened TextLines
  import opened ProfileFold

  // ----- folding -----

  lemma {:induction false} JoinAppend(fields: seq<string>, last: string, separator: char)
    requires fields != []
    ensures Join(fields + [last], separator) == Join(fields, separator) + [separator] + last
  {
    if |fields| == 1 {
      assert fields + [last] == [fields[0]] + [last];
      JoinCons(fields[0], [last], separator);
    } else {
      var rest := fields[1..];
      JoinAppend(rest, last, separator);
      assert fields + [last] == [fields[0]] + (rest + [last]);
      JoinCons(fields[0], rest + [last], separator);
    }
  }

  lemma {:induction false} FoldedIs(frames: seq<string>)
    ensures Folded(frames) == Join(frames, ';')
  {
    if |frames| > 1 {
      var front := frames[..|frames| - 1];
      FoldedIs(front);
      JoinAppend(front, frames[|frames| - 1], ';');
      assert frames == front + [frames[|frames| - 1]];
    }
  }

  /** Splitting a folded stack gives its frames back, root first, exactly when no name
      in it has a semicolon. */
  lemma FoldedSplits(frames: seq<string>)
    requires frames != []
    ensures Split(Folded(frames), ';') == frames <==> forall f | f in frames :: ';' !in f
  {
    FoldedIs(frames);
    SplitIs(Folded(frames), ';', frames);
  }

  // ----- frames -----

  /** The stacks from the root to `stack`: each is the prefix of the next one. */
  ghost predicate IsChain(t: Thread, chain: seq<nat>, stack: nat) {
    && chain != [] && chain[|chain| - 1] == stack
    && (forall k :: 0 <= k < |chain| ==> chain[k] < |t.stackPrefix|)
    && t.stackPrefix[chain[0]] == None
    && forall k :: 0 < k < |chain| ==> t.stackPrefix[chain[k]] == Some(chain[k - 1])
  }

  ghost predicate AreNames(t: Thread, chain: seq<nat>, resolvers: Resolvers, names: seq<string>)
    requires t.Valid()
  {
    && |names| == |chain|
    && forall k :: 0 <= k < |chain| && chain[k] < |t.stackFrame| ==>
         names[k] == FrameName(t, t.stackFrame[chain[k]], resolvers, Bisection)
  }

  /** Unwinding names the own frame of every stack from the root on. */
  lemma {:induction false} FramesAreChain(t: Thread, stack: nat, resolvers: Resolvers, depth: seq<nat>)
    returns (chain: seq<nat>)
    requires t.Valid() && Acyclic(t, depth) && stack < |t.stackPrefix|
    ensures IsChain(t, chain, stack)
    ensures AreNames(t, chain, resolvers, Frames(t, Some(stack), resolvers, Bisection, depth))
    decreases depth[stack]
  {
    match t.stackPrefix[stack]
    case None =>
      chain := [stack];
      assert Frames(t, None, resolvers, Bisection, depth) == [];
    case Some(prefix) =>
      var front := FramesAreChain(t, prefix, resolvers, depth);
      chain := front + [stack];
  }

  // ----- names -----

  /** The frame has an address in a library whose symbols are known. */
  ghost predicate LiesIn(t: Thread, frame: nat, resolvers: Resolvers, r: Resolver, address: int)
    requires t.Valid() && frame < |t.frameFunc|
  {
    && resolvers.Some? && t.frameAddress[frame] == Some(address) && address >= 0
    && exists resource, lib ::
      Belongs(t, frame, resource, lib) && lib in resolvers.value && resolvers.value[lib] == r
  }

  /** The function of the frame comes from the resource, which is the library. */
  ghost predicate Belongs(t: Thread, frame: nat, resource: int, lib: int)
    requires t.Valid() && frame < |t.frameFunc|
  {
    && t.funcResource[t.frameFunc[frame]] == Some(resource)
    && 0 <= resource < |t.resourceLib| && t.resourceLib[resource] == Some(lib)
  }

  /** `ranges[k]` holds the address, and no later range starts at or before it. */
  ghost predicate IsLastHolding(ranges: seq<Symbol>, address: int, k: int) {
    && 0 <= k < |ranges| && ranges[k].start <= address < ranges[k].end
    && forall j :: k < j < |ranges| ==> address < ranges[j].start
  }

  lemma {:induction false} BisectedHolds(ranges: seq<Symbol>, address: int)
    ensures forall k | IsLastHolding(ranges, address, k) :: Bisected(ranges, address) == Some(ranges[k].name)
    ensures Bisected(ranges, address).Some? ==> exists k :: IsLastHolding(ranges, address, k)
  {
    if ranges != [] {
      var n := |ranges| - 1;
      var front := ranges[..n];
      BisectedHolds(front, address);
      if ranges[n].start > address {
        forall k ensures IsLastHolding(ranges, address, k) <==> IsLastHolding(front, address, k) {
        }
      } else {
        assert IsLastHolding(ranges, address, n) <==> address < ranges[n].end;
      }
    }
  }

  /** A frame is named after the address known for it; or else after the range that holds
      its address, if the last one that starts at or before it does; or else after its
      function. */
  lemma FrameNameIs(t: Thread, frame: nat, resolvers: Resolvers)
    requires t.Valid() && frame < |t.frameFunc|
    ensures var name, own := FrameName(t, frame, resolvers, Bisection), t.strings[t.funcName[t.frameFunc[frame]]];
            && ((forall r, address :: !LiesIn(t, frame, resolvers, r, address)) ==> name == own)
            && forall r, address | LiesIn(t, frame, resolvers, r, address) ::
              && (address in r.known ==> name == r.known[address])
              && (address !in r.known ==>
                    && (forall k | IsLastHolding(r.ranges, address, k) :: name == r.ranges[k].name)
                    && ((forall k :: !IsLastHolding(r.ranges, address, k)) ==> name == own))
  {
    LiesSomewhere(t, frame, resolvers);
    forall r, address | LiesIn(t, frame, resolvers, r, address)
      ensures FrameName(t, frame, resolvers, Bisection) ==
              if address in r.known then r.known[address]
              else Bisected(r.ranges, address).GetOr(t.strings[t.funcName[t.frameFunc[frame]]])
    {
    }
    forall ranges: seq<Symbol>, address
      ensures forall k | IsLastHolding(ranges, address, k) :: Bisected(ranges, address) == Some(ranges[k].name)
      ensures Bisected(ranges, address).Some? ==> exists k :: IsLastHolding(ranges, address, k)
    {
      BisectedHolds(ranges, address);
    }
  }

  lemma LiesSomewhere(t: Thread, frame: nat, resolvers: Resolvers)
    requires t.Valid() && frame < |t.frameFunc|
    ensures (forall r, address :: !LiesIn(t, frame, resolvers, r, address)) ==>
              FrameName(t, frame, resolvers, Bisection) == t.strings[t.funcName[t.frameFunc[frame]]]
  {
    var at, resource := t.frameAddress[frame], t.funcResource[t.frameFunc[frame]];
    if resolvers.Some? && at.Some? && at.value >= 0 && resource.Some? && resource.value >= 0 {
      var lib := t.resourceLib[resource.value];
      if lib.Some? && lib.value in resolvers.value {
        assert Belongs(t, frame, resource.value, lib.value);
        assert LiesIn(t, frame, resolvers, resolvers.value[lib.value], at.value);
      }
    }
  }

  // ----- counters -----

  /** The samples whose stack folds to the text */
  ghost function FoldingTo(t: Thread, samples: seq<Option<nat>>, resolvers: Resolvers, depth: seq<nat>,
      text: string): set<int>
    requires t.Valid() && Acyclic(t, depth) && AllStacks(t, samples)
  {
    set k | 0 <= k < |samples| && samples[k].Some?
            && Folded(Frames(t, samples[k], resolvers, Bisection, depth)) == text
  }

  /** The samples that were taken in a frame of this name */
  ghost function EndingIn(t: Thread, samples: seq<Option<nat>>, resolvers: Resolvers, name: string): set<int>
    requires t.Valid() && AllStacks(t, samples)
  {
    set k | 0 <= k < |samples| && samples[k].Some?
            && FrameName(t, t.stackFrame[samples[k].value], resolvers, Bisection) == name
  }

  lemma {:induction false} FoldedCount(t: Thread, samples: seq<Option<nat>>, resolvers: Resolvers, depth: seq<nat>,
      text: string)
    requires t.Valid() && Acyclic(t, depth) && AllStacks(t, samples)
    ensures multiset(Stacks(t, samples, resolvers, depth))[text] == |FoldingTo(t, samples, resolvers, depth, text)|
  {
    if samples != [] {
      var n := |samples| - 1;
      FoldedCount(t, samples[..n], resolvers, depth, text);
      LastFolding(t, samples, resolvers, depth, text, n);
    }
  }

  lemma {:induction false} EndingCount(t: Thread, samples: seq<Option<nat>>, resolvers: Resolvers, name: string)
    requires t.Valid() && AllStacks(t, samples)
    ensures multiset(Leaves(t, samples, resolvers))[name] == |EndingIn(t, samples, resolvers, name)|
  {
    if samples != [] {
      var n := |samples| - 1;
      EndingCount(t, samples[..n], resolvers, name);
      LastEnding(t, samples, resolvers, name, n);
    }
  }

  /** The folded counter of a text is the number of samples whose stack folds to it, and
      the self-time counter of a name the number of samples that end in it. */
  lemma CountersCount(t: Thread, samples: seq<Option<nat>>, resolvers: Resolvers, depth: seq<nat>, text: string)
    requires t.Valid() && Acyclic(t, depth) && AllStacks(t, samples)
    ensures multiset(Stacks(t, samples, resolvers, depth))[text] == |FoldingTo(t, samples, resolvers, depth, text)|
    ensures multiset(Leaves(t, samples, resolvers))[text] == |EndingIn(t, samples, resolvers, text)|
  {
    FoldedCount(t, samples, resolvers, depth, text);
    EndingCount(t, samples, resolvers, text);
  }

  lemma LastFolding(t: Thread, samples: seq<Option<nat>>, resolvers: Resolvers, depth: seq<nat>, text: string, n: nat)
    requires t.Valid() && Acyclic(t, depth) && AllStacks(t, samples) && |samples| == n + 1
    ensures FoldingTo(t, samples, resolvers, depth, text) == FoldingTo(t, samples[..n], resolvers, depth, text)
              + if samples[n].Some? && Folded(Frames(t, samples[n], resolvers, Bisection, depth)) == text
                then {n} else {}
    ensures n !in FoldingTo(t, samples[..n], resolvers, depth, text)
  {
  }

  lemma LastEnding(t: Thread, samples: seq<Option<nat>>, resolvers: Resolvers, name: string, n: nat)
    requires t.Valid() && AllStacks(t, samples) && |samples| == n + 1
    ensures EndingIn(t, samples, resolvers, name) == EndingIn(t, samples[..n], resolvers, name)
              + if samples[n].Some? && FrameName(t, t.stackFrame[samples[n].value], resolvers, Bisection) == name
                then {n} else {}
    ensures n !in EndingIn(t, samples[..n], resolvers, name)
  {
  }
}
