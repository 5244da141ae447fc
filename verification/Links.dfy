/**
 The links of a backup archive. Resolving a link is a nested recursion that splices the
 resolution of every link it meets into the path built so far; the specification is the flat
 pathname walk of section 4.13 of POSIX.1-2017 Base Definitions.
 */
module Links {
  import opened Sequences
  import opened Text
  import opened Wrappers

  type Path = seq<string>

  datatype Kind = File | OldFile | Directory | SymbolicLink | Link

  datatype Member = Member(kind: Kind, linkpath: string)

  datatype Problem =
    | UnsafeTarget
    | Cyclic
    | TooDeep
    | Escapes
    | WritesThroughLink
    | HardLinkToNonFile

  const MAX_DEPTH := 40

  // ---------------------------------------------------------------- the pathname walk

  datatype Walk = Walking(at: Path, todo: Path) | Arrived(path: Path) | Climbed

  /** Where the target of a link is looked up, given the directory that holds the link. */
  function Base(link: Member, directory: Path): Path {
    if link.kind.Link? then [] else directory
  }

  /** Take the next component: stay, go up, follow a link in place, or go down. */
  function Step(links: map<string, Member>, w: Walk): Walk {
    if !w.Walking? then
      w
    else if w.todo == [] then
      Arrived(w.at)
    else
      var component, rest := w.todo[0], w.todo[1..];
      if component == "" || component == "." then
        Walking(w.at, rest)
      else if component == ".." then
        if w.at == [] then Climbed else Walking(w.at[..|w.at| - 1], rest)
      else
        var name := Join(w.at + [component], '/');
        if name in links then
          Walking(Base(links[name], w.at), Split(links[name].linkpath, '/') + rest)
        else
          Walking(w.at + [component], rest)
  }

  function Run(links: map<string, Member>, w: Walk, steps: nat): Walk
    decreases steps
  {
    if steps == 0 then w else Run(links, Step(links, w), steps - 1)
  }

  function Parent(name: string): Path {
    var parts := Split(name, '/');
    parts[..|parts| - 1]
  }

  /** The walk that follows one link. */
  function Follow(links: map<string, Member>, name: string): Walk
    requires name in links
  {
    Walking(Base(links[name], Parent(name)), Split(links[name].linkpath, '/'))
  }

  ghost predicate Ends(links: map<string, Member>, w: Walk, end: Walk) {
    exists n: nat :: Run(links, w, n) == end
  }

  ghost predicate NeverEnds(links: map<string, Member>, w: Walk) {
    forall n: nat :: Run(links, w, n).Walking?
  }

  predicate Components(path: Path) {
    forall i | 0 <= i < |path| :: '/' !in path[i]
  }

  /** No part of the path, from the root down, is a link. */
  predicate LinkFree(links: map<string, Member>, path: Path) {
    forall i | 1 <= i <= |path| :: Join(path[..i], '/') !in links
  }

  // ---------------------------------------------------------------- resolution

  /** What `ResolveLink` computes, as a function. */
  function Resolve(links: map<string, Member>, name: string, visited: set<string>): Result<Path, Problem>
    requires name in links && |visited| <= MAX_DEPTH
    decreases MAX_DEPTH - |visited|, 0
  {
    if name in visited then
      Err(Cyclic)
    else if |visited| >= MAX_DEPTH then
      Err(TooDeep)
    else
      Segments(links, Base(links[name], Parent(name)), Split(links[name].linkpath, '/'), visited + {name})
  }

  function Segments(links: map<string, Member>, resolved: Path, segments: Path, seen: set<string>)
    : Result<Path, Problem>
    requires |seen| <= MAX_DEPTH
    decreases MAX_DEPTH - |seen|, |segments| + 1
  {
    if segments == [] then
      Ok(resolved)
    else
      var segment, rest := segments[0], segments[1..];
      if segment == "" || segment == "." then
        Segments(links, resolved, rest, seen)
      else if segment == ".." then
        if resolved == [] then Err(Escapes) else Segments(links, resolved[..|resolved| - 1], rest, seen)
      else
        var pushed := resolved + [segment];
        var prefix := Join(pushed, '/');
        if prefix in links then
          var target := Resolve(links, prefix, seen);
          if target.Err? then target else Segments(links, target.value, rest, seen)
        else
          Segments(links, pushed, rest, seen)
  }

  /** Resolve one link by pushing, popping and splicing the components of its target. */
  method ResolveLink(links: map<string, Member>, name: string, visited: set<string>)
    returns (r: Result<Path, Problem>)
    requires name in links && |visited| <= MAX_DEPTH
    ensures r == Resolve(links, name, visited)
    decreases MAX_DEPTH - |visited|
  {
    if name in visited || |visited| >= MAX_DEPTH {
      return Err(if name in visited then Cyclic else TooDeep);
    }
    var seen := visited + {name};
    var entry := links[name];
    var resolved := if entry.kind.Link? then [] else Parent(name);
    var segments := Split(entry.linkpath, '/');
    for i := 0 to |segments|
      invariant Segments(links, resolved, segments[i..], seen) == Resolve(links, name, visited)
    {
      var segment := segments[i];
      assert segments[i..][1..] == segments[i + 1..];
      if segment == "" || segment == "." {
        continue;
      }
      if segment == ".." {
        if resolved == [] {
          return Err(Escapes);
        }
        resolved := resolved[..|resolved| - 1];
      } else {
        resolved := resolved + [segment];
        var prefix := Join(resolved, '/');
        if prefix in links {
          var target := ResolveLink(links, prefix, seen);
          if target.Err? {
            return target;
          }
          resolved := target.value;
        }
      }
    }
    r := Ok(resolved);
  }

  // ---------------------------------------------------------------- facts about walks

  lemma {:induction false} RunAdds(links: map<string, Member>, w: Walk, m: nat, n: nat)
    ensures Run(links, w, m + n) == Run(links, Run(links, w, m), n)
    decreases m
  {
    if m > 0 {
      RunAdds(links, Step(links, w), m - 1, n);
    }
  }

  lemma {:induction false} EndIsFinal(links: map<string, Member>, w: Walk, n: nat)
    requires !w.Walking?
    ensures Run(links, w, n) == w
    decreases n
  {
    if n > 0 {
      EndIsFinal(links, w, n - 1);
    }
  }

  function Append(w: Walk, rest: Path): Walk
    requires w.Walking?
  {
    Walking(w.at, w.todo + rest)
  }

  /** A walk with more to do goes the same way for as long as the shorter one is still walking. */
  lemma {:induction false} RunAppended(links: map<string, Member>, w: Walk, rest: Path, n: nat)
    requires w.Walking? && Run(links, w, n).Walking?
    ensures Run(links, Append(w, rest), n) == Append(Run(links, w, n), rest)
    decreases n
  {
    if n > 0 {
      if !Step(links, w).Walking? {
        EndIsFinal(links, Step(links, w), n - 1);
      }
      StepAppended(links, w, rest);
      RunAppended(links, Step(links, w), rest, n - 1);
    }
  }

  lemma StepAppended(links: map<string, Member>, w: Walk, rest: Path)
    requires w.Walking? && Step(links, w).Walking?
    ensures Step(links, Append(w, rest)) == Append(Step(links, w), rest)
  {
    assert (w.todo + rest)[1..] == w.todo[1..] + rest;
    var name := Join(w.at + [w.todo[0]], '/');
    if name in links {
      var target := Split(links[name].linkpath, '/');
      assert target + (w.todo[1..] + rest) == target + w.todo[1..] + rest;
    }
  }

  /** A walk that comes back to itself with more left to do never ends. */
  lemma {:induction false} LoopNeverEnds(links: map<string, Member>, w: Walk, rest: Path, period: nat, n: nat)
    requires w.Walking? && period >= 1
    requires Run(links, w, period) == Append(w, rest)
    ensures Run(links, w, n).Walking?
    decreases n
  {
    if n <= period {
      RunAdds(links, w, n, period - n);
      if !Run(links, w, n).Walking? {
        EndIsFinal(links, Run(links, w, n), period - n);
      }
    } else {
      LoopNeverEnds(links, w, rest, period, n - period);
      RunAdds(links, w, period, n - period);
      RunAppended(links, w, rest, n - period);
    }
  }

  // ---------------------------------------------------------------- resolution is the walk

  lemma FollowingIsBaseAtParent(at: Path, component: string)
    requires Components(at) && '/' !in component
    ensures Parent(Join(at + [component], '/')) == at
  {
    SplitOfJoin(at + [component], '/');
  }

  /** A resolved segment list is walked to the same place, whatever is left to do afterwards. */
  lemma {:induction false} SegmentsIsWalk(links: map<string, Member>, resolved: Path, segments: Path, seen: set<string>,
      rest: Path)
    returns (steps: nat)
    requires |seen| <= MAX_DEPTH && Components(resolved) && Components(segments)
    requires Segments(links, resolved, segments, seen).Ok?
    ensures
      var p := Segments(links, resolved, segments, seen).value;
      Components(p) && Run(links, Walking(resolved, segments + rest), steps) == Walking(p, rest)
    decreases MAX_DEPTH - |seen|, |segments| + 1
  {
    if segments == [] {
      assert segments + rest == rest;
      return 0;
    }
    var segment, others := segments[0], segments[1..];
    assert (segments + rest)[1..] == others + rest;
    if segment == "" || segment == "." {
      steps := SegmentsIsWalk(links, resolved, others, seen, rest);
    } else if segment == ".." {
      steps := SegmentsIsWalk(links, resolved[..|resolved| - 1], others, seen, rest);
    } else {
      var pushed := resolved + [segment];
      var prefix := Join(pushed, '/');
      if prefix in links {
        FollowingIsBaseAtParent(resolved, segment);
        var inner := ResolveIsWalk(links, prefix, seen, others + rest);
        var target := Resolve(links, prefix, seen).value;
        var outer := SegmentsIsWalk(links, target, others, seen, rest);
        RunAdds(links, Append(Follow(links, prefix), others + rest), inner, outer);
        steps := inner + outer;
      } else {
        steps := SegmentsIsWalk(links, pushed, others, seen, rest);
      }
    }
    steps := steps + 1;
  }

  lemma {:induction false} ResolveIsWalk(links: map<string, Member>, name: string, visited: set<string>, rest: Path)
    returns (steps: nat)
    requires name in links && |visited| <= MAX_DEPTH && Resolve(links, name, visited).Ok?
    ensures
      var p := Resolve(links, name, visited).value;
      Components(p) && Run(links, Append(Follow(links, name), rest), steps) == Walking(p, rest)
    decreases MAX_DEPTH - |visited|, 0
  {
    steps := SegmentsIsWalk(links, Base(links[name], Parent(name)), Split(links[name].linkpath, '/'), visited + {name},
      rest);
  }

  // ---------------------------------------------------------------- a resolved path is link-free

  lemma {:induction false} SegmentsIsLinkFree(links: map<string, Member>, resolved: Path, segments: Path,
      seen: set<string>)
    requires |seen| <= MAX_DEPTH && Components(resolved) && Components(segments)
    requires LinkFree(links, resolved) && ParentsLinkFree(links)
    requires Segments(links, resolved, segments, seen).Ok?
    ensures LinkFree(links, Segments(links, resolved, segments, seen).value)
    decreases MAX_DEPTH - |seen|, |segments| + 1
  {
    if segments != [] {
      var segment, others := segments[0], segments[1..];
      if segment == "" || segment == "." {
        SegmentsIsLinkFree(links, resolved, others, seen);
      } else if segment == ".." {
        var up := resolved[..|resolved| - 1];
        forall i | 1 <= i <= |up| ensures Join(up[..i], '/') !in links {
          assert up[..i] == resolved[..i];
        }
        SegmentsIsLinkFree(links, up, others, seen);
      } else {
        var pushed := resolved + [segment];
        var prefix := Join(pushed, '/');
        if prefix in links {
          ResolveIsLinkFree(links, prefix, seen);
          var steps := ResolveIsWalk(links, prefix, seen, []);
          SegmentsIsLinkFree(links, Resolve(links, prefix, seen).value, others, seen);
        } else {
          forall i | 1 <= i <= |pushed| ensures Join(pushed[..i], '/') !in links {
            assert i <= |resolved| ==> pushed[..i] == resolved[..i];
            assert i == |pushed| ==> pushed[..i] == pushed;
          }
          SegmentsIsLinkFree(links, pushed, others, seen);
        }
      }
    }
  }

  /** No link lies below another link. */
  predicate ParentsLinkFree(links: map<string, Member>) {
    forall name | name in links :: LinkFree(links, Parent(name))
  }

  lemma {:induction false} ResolveIsLinkFree(links: map<string, Member>, name: string, visited: set<string>)
    requires name in links && |visited| <= MAX_DEPTH && ParentsLinkFree(links)
    requires Resolve(links, name, visited).Ok?
    ensures LinkFree(links, Resolve(links, name, visited).value)
    decreases MAX_DEPTH - |visited|, 0
  {
    SegmentsIsLinkFree(links, Base(links[name], Parent(name)), Split(links[name].linkpath, '/'), visited + {name});
  }

  // ---------------------------------------------------------------- what each failure means

  lemma {:induction false} SegmentsEscapeClimbs(links: map<string, Member>, resolved: Path, segments: Path,
      seen: set<string>, rest: Path)
    returns (steps: nat)
    requires |seen| <= MAX_DEPTH && Components(resolved) && Components(segments)
    requires Segments(links, resolved, segments, seen) == Err(Escapes)
    ensures Run(links, Walking(resolved, segments + rest), steps) == Climbed
    decreases MAX_DEPTH - |seen|, |segments| + 1
  {
    var segment, others := segments[0], segments[1..];
    assert (segments + rest)[1..] == others + rest;
    if segment == "" || segment == "." {
      steps := SegmentsEscapeClimbs(links, resolved, others, seen, rest);
    } else if segment == ".." {
      if resolved == [] {
        steps := 0;
      } else {
        steps := SegmentsEscapeClimbs(links, resolved[..|resolved| - 1], others, seen, rest);
      }
    } else {
      var pushed := resolved + [segment];
      var prefix := Join(pushed, '/');
      if prefix in links {
        FollowingIsBaseAtParent(resolved, segment);
        var target := Resolve(links, prefix, seen);
        if target.Err? {
          steps := ResolveEscapeClimbs(links, prefix, seen, others + rest);
        } else {
          var inner := ResolveIsWalk(links, prefix, seen, others + rest);
          var outer := SegmentsEscapeClimbs(links, target.value, others, seen, rest);
          RunAdds(links, Append(Follow(links, prefix), others + rest), inner, outer);
          steps := inner + outer;
        }
      } else {
        steps := SegmentsEscapeClimbs(links, pushed, others, seen, rest);
      }
    }
    steps := steps + 1;
  }

  lemma {:induction false} ResolveEscapeClimbs(links: map<string, Member>, name: string, visited: set<string>,
      rest: Path)
    returns (steps: nat)
    requires name in links && |visited| <= MAX_DEPTH && Resolve(links, name, visited) == Err(Escapes)
    ensures Run(links, Append(Follow(links, name), rest), steps) == Climbed
    decreases MAX_DEPTH - |visited|, 0
  {
    steps := SegmentsEscapeClimbs(links, Base(links[name], Parent(name)), Split(links[name].linkpath, '/'),
      visited + {name}, rest);
  }

  /** The walk that follows `name` passes through this point, possibly with more to do afterwards. */
  ghost predicate PassesThrough(links: map<string, Member>, name: string, at: Path, todo: Path)
    requires name in links
  {
    exists steps: nat, rest: Path :: Run(links, Follow(links, name), steps) == Append(Walking(at, todo), rest)
  }

  ghost predicate AllPassThrough(links: map<string, Member>, names: set<string>, at: Path, todo: Path) {
    forall name | name in names :: name in links && PassesThrough(links, name, at, todo)
  }

  lemma PassesOn(links: map<string, Member>, names: set<string>, at: Path, todo: Path, at': Path, todo': Path,
      steps: nat)
    requires AllPassThrough(links, names, at, todo)
    requires forall rest: Path ::
      Run(links, Append(Walking(at, todo), rest), steps) == Append(Walking(at', todo'), rest)
    ensures AllPassThrough(links, names, at', todo')
  {
    forall name | name in names ensures PassesThrough(links, name, at', todo') {
      var n: nat, rest: Path :| Run(links, Follow(links, name), n) == Append(Walking(at, todo), rest);
      RunAdds(links, Follow(links, name), n, steps);
      assert Run(links, Follow(links, name), n + steps) == Append(Walking(at', todo'), rest);
    }
  }

  /** With this left to do behind it, a walk that is here starts to follow `name` again. */
  ghost predicate Restarts(links: map<string, Member>, name: string, at: Path, todo: Path, rest: Path)
    requires name in links
  {
    exists more: Path :: Step(links, Append(Walking(at, todo), rest)) == Append(Follow(links, name), more)
  }

  /** Coming back, while following `name`, to the start of following it again: the walk never ends. */
  lemma RevisitNeverEnds(links: map<string, Member>, names: set<string>, name: string, at: Path, todo: Path)
    requires name in names && AllPassThrough(links, names, at, todo)
    requires forall rest: Path :: Restarts(links, name, at, todo, rest)
    ensures forall other | other in names :: NeverEnds(links, Follow(links, other))
  {
    assert NeverEnds(links, Follow(links, name)) by {
      var n, more := Revisit(links, name, name, at, todo);
      forall k: nat ensures Run(links, Follow(links, name), k).Walking? {
        LoopNeverEnds(links, Follow(links, name), more, n, k);
      }
    }
    forall other | other in names ensures NeverEnds(links, Follow(links, other)) {
      var n, more := Revisit(links, other, name, at, todo);
      forall k: nat ensures Run(links, Follow(links, other), k).Walking? {
        ReachingEndlessIsEndless(links, Follow(links, other), n, Follow(links, name), more, k);
      }
    }
  }

  lemma Revisit(links: map<string, Member>, other: string, name: string, at: Path, todo: Path)
    returns (steps: nat, more: Path)
    requires other in links && name in links && PassesThrough(links, other, at, todo)
    requires forall rest: Path :: Restarts(links, name, at, todo, rest)
    ensures steps >= 1 && Run(links, Follow(links, other), steps) == Append(Follow(links, name), more)
  {
    var n: nat, rest: Path :| Run(links, Follow(links, other), n) == Append(Walking(at, todo), rest);
    assert Restarts(links, name, at, todo, rest);
    more :| Step(links, Append(Walking(at, todo), rest)) == Append(Follow(links, name), more);
    RunAdds(links, Follow(links, other), n, 1);
    assert Run(links, Append(Walking(at, todo), rest), 1) == Step(links, Append(Walking(at, todo), rest));
    steps := n + 1;
  }

  lemma ReachingEndlessIsEndless(links: map<string, Member>, w: Walk, n: nat, endless: Walk, rest: Path, k: nat)
    requires w.Walking? && endless.Walking? && Run(links, w, n) == Append(endless, rest) && NeverEnds(links, endless)
    ensures Run(links, w, k).Walking?
  {
    if k <= n {
      RunAdds(links, w, k, n - k);
      if !Run(links, w, k).Walking? {
        EndIsFinal(links, Run(links, w, k), n - k);
      }
    } else {
      RunAdds(links, w, n, k - n);
      assert Run(links, endless, k - n).Walking?;
      RunAppended(links, endless, rest, k - n);
    }
  }

  lemma {:induction false} SegmentsCyclicNeverEnds(links: map<string, Member>, resolved: Path, segments: Path,
      seen: set<string>)
    requires |seen| <= MAX_DEPTH && Components(resolved) && Components(segments)
    requires AllPassThrough(links, seen, resolved, segments)
    requires Segments(links, resolved, segments, seen) == Err(Cyclic)
    ensures forall name | name in seen :: NeverEnds(links, Follow(links, name))
    decreases MAX_DEPTH - |seen|, |segments|, 1
  {
    var segment, others := segments[0], segments[1..];
    forall rest: Path ensures (segments + rest)[1..] == others + rest {
    }
    if segment == "" || segment == "." {
      PassesOn(links, seen, resolved, segments, resolved, others, 1);
      SegmentsCyclicNeverEnds(links, resolved, others, seen);
    } else if segment == ".." {
      PassesOn(links, seen, resolved, segments, resolved[..|resolved| - 1], others, 1);
      SegmentsCyclicNeverEnds(links, resolved[..|resolved| - 1], others, seen);
    } else {
      var pushed := resolved + [segment];
      var prefix := Join(pushed, '/');
      if prefix !in links {
        PassesOn(links, seen, resolved, segments, pushed, others, 1);
        SegmentsCyclicNeverEnds(links, pushed, others, seen);
      } else {
        FollowingIsBaseAtParent(resolved, segment);
        StepFollows(links, resolved, segments, prefix);
        var target := Resolve(links, prefix, seen);
        if target.Err? {
          LinkCyclicNeverEnds(links, resolved, segments, seen, prefix);
        } else {
          var steps := PassesOver(links, resolved, segments, seen, prefix);
          PassesOn(links, seen, resolved, segments, target.value, others, steps);
          var inner := ResolveIsWalk(links, prefix, seen, []);
          SegmentsCyclicNeverEnds(links, target.value, others, seen);
        }
      }
    }
  }

  /** The cycle lies in the link met here. */
  lemma {:induction false} LinkCyclicNeverEnds(links: map<string, Member>, resolved: Path, segments: Path,
      seen: set<string>, prefix: string)
    requires |seen| <= MAX_DEPTH && prefix in links
    requires AllPassThrough(links, seen, resolved, segments)
    requires MeetsLink(links, prefix, resolved, segments)
    requires Resolve(links, prefix, seen) == Err(Cyclic)
    ensures forall name | name in seen :: NeverEnds(links, Follow(links, name))
    decreases MAX_DEPTH - |seen|, |segments|, 0
  {
    if prefix in seen {
      MeetingRestarts(links, prefix, resolved, segments);
      RevisitNeverEnds(links, seen, prefix, resolved, segments);
    } else {
      MeetingPassesInto(links, seen, prefix, resolved, segments);
      FollowPassesThroughItself(links, prefix);
      SegmentsCyclicNeverEnds(links, Follow(links, prefix).at, Follow(links, prefix).todo, seen + {prefix});
    }
  }

  /** At this point every walk follows the link next, whatever it has to do after this. */
  ghost predicate MeetsLink(links: map<string, Member>, name: string, at: Path, todo: Path)
    requires name in links
  {
    && todo != []
    && forall rest: Path ::
         Step(links, Append(Walking(at, todo), rest)) == Append(Follow(links, name), todo[1..] + rest)
  }

  lemma MeetingRestarts(links: map<string, Member>, name: string, at: Path, todo: Path)
    requires name in links && MeetsLink(links, name, at, todo)
    ensures forall rest: Path :: Restarts(links, name, at, todo, rest)
  {
    forall rest: Path ensures Restarts(links, name, at, todo, rest) {
      assert Step(links, Append(Walking(at, todo), rest)) == Append(Follow(links, name), todo[1..] + rest);
    }
  }

  lemma MeetingPassesInto(links: map<string, Member>, names: set<string>, name: string, at: Path, todo: Path)
    requires name in links && MeetsLink(links, name, at, todo) && AllPassThrough(links, names, at, todo)
    ensures AllPassThrough(links, names, Follow(links, name).at, Follow(links, name).todo)
  {
    PassesInto(links, names, at, todo, Follow(links, name), todo[1..]);
  }

  lemma StepFollows(links: map<string, Member>, at: Path, todo: Path, prefix: string)
    requires todo != [] && todo[0] != "" && todo[0] != "." && todo[0] != ".."
    requires prefix == Join(at + [todo[0]], '/') && prefix in links && Parent(prefix) == at
    ensures MeetsLink(links, prefix, at, todo)
  {
    forall rest: Path
      ensures Step(links, Append(Walking(at, todo), rest)) == Append(Follow(links, prefix), todo[1..] + rest)
    {
      assert (todo + rest)[1..] == todo[1..] + rest;
    }
  }

  /** Walks at the point where a link is met go on into that link. */
  lemma PassesInto(links: map<string, Member>, names: set<string>, at: Path, todo: Path, follow: Walk, others: Path)
    requires follow.Walking? && AllPassThrough(links, names, at, todo)
    requires forall rest: Path :: Step(links, Append(Walking(at, todo), rest)) == Append(follow, others + rest)
    ensures AllPassThrough(links, names, follow.at, follow.todo)
  {
    var inside := Walking(follow.at, follow.todo + others);
    forall rest: Path ensures Run(links, Append(Walking(at, todo), rest), 1) == Append(inside, rest) {
      assert follow.todo + (others + rest) == follow.todo + others + rest;
      assert Run(links, Step(links, Append(Walking(at, todo), rest)), 0) == Append(follow, others + rest);
    }
    PassesOn(links, names, at, todo, follow.at, follow.todo + others, 1);
    NestedPassesThrough(links, names, follow.at, follow.todo, others);
  }

  /** Walks at the point where a link is met come out at what the link resolves to. */
  lemma PassesOver(links: map<string, Member>, at: Path, todo: Path, seen: set<string>, prefix: string)
    returns (steps: nat)
    requires |seen| <= MAX_DEPTH && prefix in links && Resolve(links, prefix, seen).Ok? && todo != []
    requires MeetsLink(links, prefix, at, todo)
    ensures forall rest: Path ::
      Run(links, Append(Walking(at, todo), rest), steps)
        == Append(Walking(Resolve(links, prefix, seen).value, todo[1..]), rest)
  {
    var target := Resolve(links, prefix, seen).value;
    var inner := ResolveIsWalk(links, prefix, seen, []);
    steps := 1 + inner;
    assert Append(Follow(links, prefix), []) == Follow(links, prefix);
    forall rest: Path
      ensures Run(links, Append(Walking(at, todo), rest), steps) == Append(Walking(target, todo[1..]), rest)
    {
      PassesOverWith(links, at, todo, prefix, target, inner, rest);
    }
  }

  lemma PassesOverWith(links: map<string, Member>, at: Path, todo: Path, name: string, target: Path, inner: nat,
      rest: Path)
    requires name in links && MeetsLink(links, name, at, todo)
    requires Run(links, Follow(links, name), inner) == Walking(target, [])
    ensures Run(links, Append(Walking(at, todo), rest), 1 + inner) == Append(Walking(target, todo[1..]), rest)
  {
    RunAppended(links, Follow(links, name), todo[1..] + rest, inner);
    assert Append(Walking(target, []), todo[1..] + rest) == Append(Walking(target, todo[1..]), rest);
  }

  lemma NestedPassesThrough(links: map<string, Member>, names: set<string>, at: Path, todo: Path, others: Path)
    requires AllPassThrough(links, names, at, todo + others)
    ensures AllPassThrough(links, names, at, todo)
  {
    forall name | name in names ensures PassesThrough(links, name, at, todo) {
      var n: nat, rest: Path :| Run(links, Follow(links, name), n) == Append(Walking(at, todo + others), rest);
      assert todo + others + rest == todo + (others + rest);
      assert Run(links, Follow(links, name), n) == Append(Walking(at, todo), others + rest);
    }
  }

  lemma FollowPassesThroughItself(links: map<string, Member>, name: string)
    requires name in links
    ensures PassesThrough(links, name, Follow(links, name).at, Follow(links, name).todo)
  {
    var follow := Follow(links, name);
    assert Run(links, follow, 0) == Append(Walking(follow.at, follow.todo), []);
  }

  /**
   Resolution decides the walk: it succeeds only at the place where the walk arrives, which is
   link-free; it reports an escape only when the walk climbs above the root, and a cycle only when
   the walk never ends. The one verdict that says nothing about the walk is the depth limit.
   */
  lemma ResolutionDecidesTheWalk(links: map<string, Member>, name: string)
    requires name in links && ParentsLinkFree(links)
    ensures
      var r := Resolve(links, name, {});
      var walk := Follow(links, name);
      match r
      case Ok(path) => Ends(links, walk, Arrived(path)) && LinkFree(links, path)
      case Err(problem) =>
        && (problem == Escapes ==> Ends(links, walk, Climbed))
        && (problem == Cyclic ==> NeverEnds(links, walk))
        && (problem == TooDeep || problem == Escapes || problem == Cyclic)
  {
    var r := Resolve(links, name, {});
    var walk := Follow(links, name);
    assert Append(walk, []) == walk;
    if r.Ok? {
      var steps := ResolveIsWalk(links, name, {}, []);
      RunAdds(links, walk, steps, 1);
      assert Run(links, Walking(r.value, []), 1) == Arrived(r.value);
      assert Run(links, walk, steps + 1) == Arrived(r.value);
      ResolveIsLinkFree(links, name, {});
    } else {
      ResolveFailsInThreeWays(links, name, {});
      if r.error == Escapes {
        var steps := ResolveEscapeClimbs(links, name, {}, []);
      } else if r.error == Cyclic {
        FollowPassesThroughItself(links, name);
        assert {} + {name} == {name};
        SegmentsCyclicNeverEnds(links, walk.at, walk.todo, {name});
      }
    }
  }

  lemma {:induction false} SegmentsFailsInThreeWays(links: map<string, Member>, resolved: Path, segments: Path,
      seen: set<string>)
    requires |seen| <= MAX_DEPTH && Segments(links, resolved, segments, seen).Err?
    ensures Segments(links, resolved, segments, seen).error in {Escapes, Cyclic, TooDeep}
    decreases MAX_DEPTH - |seen|, |segments| + 1
  {
    var segment, others := segments[0], segments[1..];
    if segment == "" || segment == "." {
      SegmentsFailsInThreeWays(links, resolved, others, seen);
    } else if segment == ".." {
      if resolved != [] {
        SegmentsFailsInThreeWays(links, resolved[..|resolved| - 1], others, seen);
      }
    } else {
      var pushed := resolved + [segment];
      var prefix := Join(pushed, '/');
      if prefix !in links {
        SegmentsFailsInThreeWays(links, pushed, others, seen);
      } else if Resolve(links, prefix, seen).Err? {
        ResolveFailsInThreeWays(links, prefix, seen);
      } else {
        SegmentsFailsInThreeWays(links, Resolve(links, prefix, seen).value, others, seen);
      }
    }
  }

  lemma {:induction false} ResolveFailsInThreeWays(links: map<string, Member>, name: string, visited: set<string>)
    requires name in links && |visited| <= MAX_DEPTH && Resolve(links, name, visited).Err?
    ensures Resolve(links, name, visited).error in {Escapes, Cyclic, TooDeep}
    decreases MAX_DEPTH - |visited|, 0
  {
    if name !in visited && |visited| < MAX_DEPTH {
      SegmentsFailsInThreeWays(links, Base(links[name], Parent(name)), Split(links[name].linkpath, '/'),
        visited + {name});
    }
  }

  // ---------------------------------------------------------------- checking a whole archive

  /** A member as the archive lists it. */
  datatype Listed = Listed(name: string, member: Member)

  datatype Report = Report(name: string, problem: Problem)

  predicate IsLink(m: Member) {
    m.kind.SymbolicLink? || m.kind.Link?
  }

  predicate DriveLetter(target: string) {
    |target| >= 2 && target[1] == ':' && ('A' <= target[0] <= 'Z' || 'a' <= target[0] <= 'z')
  }

  predicate UnsafeLinkTarget(target: string) {
    target == "" || '\\' in target || '\0' in target || target[0] == '/' || DriveLetter(target)
  }

  ghost predicate DistinctNames(members: seq<Listed>) {
    forall i, j | 0 <= i < j < |members| :: members[i].name != members[j].name
  }

  /** The links whose targets are safe to look at. */
  function SafeLinks(members: seq<Listed>): map<string, Member> {
    if members == [] then
      map[]
    else
      var last := members[|members| - 1];
      var others := SafeLinks(members[..|members| - 1]);
      if IsLink(last.member) && !UnsafeLinkTarget(last.member.linkpath) then
        others[last.name := last.member]
      else
        others
  }

  function UnsafeReports(members: seq<Listed>): seq<Report> {
    if members == [] then
      []
    else
      var last := members[|members| - 1];
      UnsafeReports(members[..|members| - 1])
      + if IsLink(last.member) && UnsafeLinkTarget(last.member.linkpath) then [Report(last.name, UnsafeTarget)] else []
  }

  predicate RegularFile(members: seq<Listed>, name: string) {
    exists m :: m in members && m.name == name && (m.member.kind.File? || m.member.kind.OldFile?)
  }

  /** The problem with one member, given the safe links of the whole archive. */
  function MemberProblem(members: seq<Listed>, links: map<string, Member>, m: Listed): Option<Problem> {
    if !LinkFree(links, Parent(m.name)) then
      Some(WritesThroughLink)
    else if m.name !in links then
      None
    else
      var target := Resolve(links, m.name, {});
      if target.Err? then
        Some(target.error)
      else if m.member.kind.Link? && !RegularFile(members, Join(target.value, '/')) then
        Some(HardLinkToNonFile)
      else
        None
  }

  function MemberReports(members: seq<Listed>, links: map<string, Member>, upTo: nat): seq<Report>
    requires upTo <= |members|
  {
    if upTo == 0 then
      []
    else
      var problem := MemberProblem(members, links, members[upTo - 1]);
      MemberReports(members, links, upTo - 1)
      + if problem.Some? then [Report(members[upTo - 1].name, problem.value)] else []
  }

  function AllReports(members: seq<Listed>): seq<Report> {
    UnsafeReports(members) + MemberReports(members, SafeLinks(members), |members|)
  }

  function FirstOf(reports: seq<Report>): seq<Report> {
    if reports == [] then [] else [reports[0]]
  }

  /** Whether some directory above the member is a link. */
  method LiesBelowLink(links: map<string, Member>, name: string) returns (below: bool)
    ensures below <==> !LinkFree(links, Parent(name))
  {
    var parts := Split(name, '/');
    for index := 1 to |parts|
      invariant forall i | 1 <= i < index :: Join(Parent(name)[..i], '/') !in links
    {
      assert Parent(name)[..index] == parts[..index];
      if Join(parts[..index], '/') in links {
        return true;
      }
    }
    below := false;
  }

  /** What the second pass finds in one member. */
  method FindProblem(members: seq<Listed>, links: map<string, Member>, m: Listed) returns (problem: Option<Problem>)
    ensures problem == MemberProblem(members, links, m)
  {
    problem := None;
    var below := LiesBelowLink(links, m.name);
    if below {
      problem := Some(WritesThroughLink);
    } else if m.name in links {
      var target := ResolveLink(links, m.name, {});
      if target.Err? {
        problem := Some(target.error);
      } else if m.member.kind.Link? && !RegularFile(members, Join(target.value, '/')) {
        problem := Some(HardLinkToNonFile);
      }
    }
  }

  /** Report the links that are unsafe to restore, all of them or only the first. */
  method ArchiveLinkProblems(members: seq<Listed>, stopOnFirst: bool) returns (problems: seq<Report>)
    ensures problems == if stopOnFirst then FirstOf(AllReports(members)) else AllReports(members)
  {
    problems := [];
    var links: map<string, Member> := map[];
    for i := 0 to |members|
      invariant problems == UnsafeReports(members[..i]) && links == SafeLinks(members[..i])
      invariant stopOnFirst ==> problems == []
    {
      var m := members[i];
      NextMember(members, i);
      if IsLink(m.member) {
        if UnsafeLinkTarget(m.member.linkpath) {
          problems := problems + [Report(m.name, UnsafeTarget)];
          if stopOnFirst {
            UnsafeReportsOfPrefix(members, i + 1);
            FirstOfAll(members, problems);
            return;
          }
        } else {
          links := links[m.name := m.member];
        }
      }
    }
    assert members[..|members|] == members;
    problems := CheckMembers(members, links, problems, stopOnFirst);
  }

  /** The second pass over the members, after what the first one reported. */
  method CheckMembers(members: seq<Listed>, links: map<string, Member>, unsafe: seq<Report>, stopOnFirst: bool)
    returns (problems: seq<Report>)
    requires unsafe == UnsafeReports(members) && links == SafeLinks(members) && (stopOnFirst ==> unsafe == [])
    ensures problems == if stopOnFirst then FirstOf(AllReports(members)) else AllReports(members)
  {
    problems := unsafe;
    for i := 0 to |members|
      invariant problems == unsafe + MemberReports(members, links, i)
      invariant stopOnFirst ==> problems == []
    {
      problems := CheckMember(members, links, i, problems, unsafe);
      if stopOnFirst && problems != [] {
        FirstFound(members, links, i + 1, problems);
        return;
      }
    }
  }

  method CheckMember(members: seq<Listed>, links: map<string, Member>, i: nat, problems: seq<Report>,
      ghost unsafe: seq<Report>)
    returns (more: seq<Report>)
    requires i < |members| && problems == unsafe + MemberReports(members, links, i)
    ensures more == unsafe + MemberReports(members, links, i + 1) && |problems| <= |more| <= |problems| + 1
  {
    var m := members[i];
    var problem := FindProblem(members, links, m);
    NextReports(members, links, i, unsafe, problem);
    more := problems;
    if problem.Some? {
      more := more + [Report(m.name, problem.value)];
    }
  }

  /** What the first pass makes of one more member. */
  lemma NextMember(members: seq<Listed>, i: nat)
    requires i < |members|
    ensures
      var m, known := members[i], UnsafeReports(members[..i]);
      UnsafeReports(members[..i + 1])
      == if IsLink(m.member) && UnsafeLinkTarget(m.member.linkpath) then known + [Report(m.name, UnsafeTarget)]
         else known
    ensures
      var m, links := members[i], SafeLinks(members[..i]);
      SafeLinks(members[..i + 1])
      == if IsLink(m.member) && !UnsafeLinkTarget(m.member.linkpath) then links[m.name := m.member] else links
  {
    assert members[..i + 1][..i] == members[..i];
  }

  /** What the second pass makes of one more member. */
  lemma NextReports(members: seq<Listed>, links: map<string, Member>, i: nat, unsafe: seq<Report>,
      problem: Option<Problem>)
    requires i < |members| && problem == MemberProblem(members, links, members[i])
    ensures
      var before := unsafe + MemberReports(members, links, i);
      unsafe + MemberReports(members, links, i + 1)
      == if problem.Some? then before + [Report(members[i].name, problem.value)] else before
  {
    var reports := MemberReports(members, links, i);
    if problem.Some? {
      Regroup(unsafe, reports, [Report(members[i].name, problem.value)]);
    } else {
      EmptyIsUnit(reports);
    }
  }

  lemma FirstFound(members: seq<Listed>, links: map<string, Member>, i: nat, found: seq<Report>)
    requires i <= |members| && links == SafeLinks(members)
    requires |found| == 1 && found == UnsafeReports(members) + MemberReports(members, links, i)
    ensures found == FirstOf(AllReports(members))
  {
    MemberReportsOfPrefix(members, links, i);
    FirstOfAll(members, found);
  }

  lemma FirstOfAll(members: seq<Listed>, found: seq<Report>)
    requires |found| == 1 && found <= AllReports(members)
    ensures found == FirstOf(AllReports(members))
  {
  }

  lemma {:induction false} UnsafeReportsOfPrefix(members: seq<Listed>, i: nat)
    requires i <= |members|
    ensures UnsafeReports(members[..i]) <= UnsafeReports(members)
    decreases |members| - i
  {
    if i == |members| {
      assert members[..i] == members;
    } else {
      UnsafeReportsOfPrefix(members, i + 1);
      assert members[..i + 1][..i] == members[..i];
    }
  }

  lemma {:induction false} MemberReportsOfPrefix(members: seq<Listed>, links: map<string, Member>, i: nat)
    requires i <= |members|
    ensures MemberReports(members, links, i) <= MemberReports(members, links, |members|)
    decreases |members| - i
  {
    if i < |members| {
      MemberReportsOfPrefix(members, links, i + 1);
    }
  }

  lemma {:induction false} NoReportMeansNoProblem(members: seq<Listed>, links: map<string, Member>, upTo: nat)
    requires upTo <= |members|
    ensures MemberReports(members, links, upTo) == [] <==>
            forall i | 0 <= i < upTo :: MemberProblem(members, links, members[i]).None?
  {
    if upTo > 0 {
      NoReportMeansNoProblem(members, links, upTo - 1);
    }
  }

  lemma {:induction false} NoUnsafeReportMeansAllLinksSafe(members: seq<Listed>)
    requires DistinctNames(members) && UnsafeReports(members) == []
    ensures forall m | m in members && IsLink(m.member) ::
      m.name in SafeLinks(members) && SafeLinks(members)[m.name] == m.member
    ensures forall name | name in SafeLinks(members) :: exists m :: m in members && m.name == name && IsLink(m.member)
  {
    if members != [] {
      var others, last := members[..|members| - 1], members[|members| - 1];
      assert members == others + [last];
      NoUnsafeReportMeansAllLinksSafe(others);
      forall m | m in members && IsLink(m.member)
        ensures m.name in SafeLinks(members) && SafeLinks(members)[m.name] == m.member
      {
        if m != last {
          assert m in others;
          var i :| 0 <= i < |others| && others[i] == m;
          assert members[i].name != members[|members| - 1].name;
        }
      }
      forall name | name in SafeLinks(members)
        ensures exists m :: m in members && m.name == name && IsLink(m.member)
      {
        if name in SafeLinks(others) {
          var m :| m in others && m.name == name && IsLink(m.member);
          assert m in members;
        } else {
          assert last in members;
        }
      }
    }
  }

  /**
   An archive without reported problems: following any of its links, component by component,
   ends at a link-free path inside the archive, and for a hard link that path is a regular file.
   */
  lemma CleanArchiveIsSafeToFollow(members: seq<Listed>, m: Listed)
    requires DistinctNames(members) && AllReports(members) == []
    requires m in members && IsLink(m.member)
    ensures
      var links := SafeLinks(members);
      && m.name in links && links[m.name] == m.member
      && exists path ::
           && Resolve(links, m.name, {}) == Ok(path)
           && Ends(links, Follow(links, m.name), Arrived(path))
           && LinkFree(links, path)
           && (m.member.kind.Link? ==> RegularFile(members, Join(path, '/')))
  {
    var links := SafeLinks(members);
    NoUnsafeReportMeansAllLinksSafe(members);
    NoReportMeansNoProblem(members, links, |members|);
    forall name | name in links ensures LinkFree(links, Parent(name)) {
      var other :| other in members && other.name == name && IsLink(other.member);
      assert MemberProblem(members, links, other).None?;
    }
    assert MemberProblem(members, links, m).None?;
    ResolutionDecidesTheWalk(links, m.name);
    assert Resolve(links, m.name, {}) == Ok(Resolve(links, m.name, {}).value);
  }
}
