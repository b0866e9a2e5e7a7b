/** The include closure of an execution scope: a worklist over the code files that adds every header they may include.
    */
module IncludeClosure {
  type Path = string

  /** The path library: joining an include value to the directory of a file, normalising a value, the last component of
      a path and its lower-case suffix. */
  datatype Paths = Paths(join: (Path, string) -> Path, normal: string -> Path, name: string -> string,
                         suffix: Path -> string)

  /** For every source file, the values of its include directives in order of appearance. */
  type Files = map<Path, seq<string>>

  function CompiledSuffixes(): set<string> {
    {".c", ".cc", ".cpp", ".cxx", ".cu", ".f", ".f77", ".f90", ".f95", ".for"}
  }

  function HeaderSuffixes(): set<string> {
    {".h", ".hh", ".hpp", ".hxx", ".cuh", ".fh", ".inc"}
  }

  predicate IsHeader(paths: Paths, p: Path) {
    paths.suffix(p) in HeaderSuffixes()
  }

  predicate IsCode(paths: Paths, p: Path) {
    paths.suffix(p) in CompiledSuffixes() || IsHeader(paths, p)
  }

  /** The files an include directive may mean: relative to the including file, relative to the root, or of that name. */
  predicate MayMean(paths: Paths, files: Files, source: Path, value: string, target: Path) {
    target in files
    && (target == paths.join(source, value) || target == paths.normal(value) || paths.name(target) == paths.name(value))
  }

  predicate Edge(paths: Paths, files: Files, source: Path, target: Path) {
    && source in files && IsCode(paths, source) && IsHeader(paths, target)
    && exists k :: 0 <= k < |files[source]| && MayMean(paths, files, source, files[source][k], target)
  }

  ghost predicate Closed(paths: Paths, files: Files, s: set<Path>) {
    forall p, q | p in s && Edge(paths, files, p, q) :: q in s
  }

  /** `result` is the least set that holds `start` and is closed under include edges. */
  ghost predicate IsClosure(paths: Paths, files: Files, start: set<Path>, result: set<Path>) {
    && start <= result && Closed(paths, files, result)
    && forall s | start <= s && Closed(paths, files, s) :: result <= s
  }

  datatype Reason = Given(text: string) | IncludedBy(source: Path)

  type Reasons = map<Path, set<Reason>>

  predicate HasReason(reasons: Reasons, p: Path, r: Reason) {
    p in reasons && r in reasons[p]
  }

  // ----- the program

  function NamedIn(byName: map<string, set<Path>>, name: string): set<Path> {
    if name in byName then byName[name] else {}
  }

  method IndexNames(paths: Paths, files: Files) returns (byName: map<string, set<Path>>)
    ensures forall name, p :: p in NamedIn(byName, name) <==> p in files && paths.name(p) == name
  {
    byName := map[];
    var left := files.Keys;
    assert forall name :: NamedIn(byName, name) == {};
    while left != {}
      invariant left <= files.Keys
      invariant forall name, p :: p in NamedIn(byName, name) <==> p in files && p !in left && paths.name(p) == name
      decreases left
    {
      var p :| p in left;
      left := left - {p};
      var more := byName[paths.name(p) := NamedIn(byName, paths.name(p)) + {p}];
      assert forall name :: NamedIn(more, name) == NamedIn(byName, name) + if name == paths.name(p) then {p} else {};
      byName := more;
    }
  }

  method Candidates(paths: Paths, files: Files, byName: map<string, set<Path>>, source: Path, value: string)
    returns (targets: set<Path>)
    requires forall name, p :: p in NamedIn(byName, name) <==> p in files && paths.name(p) == name
    ensures forall p :: p in targets <==> MayMean(paths, files, source, value, p)
  {
    targets := {};
    if paths.join(source, value) in files {
      targets := targets + {paths.join(source, value)};
    }
    if paths.normal(value) in files {
      targets := targets + {paths.normal(value)};
    }
    targets := targets + NamedIn(byName, paths.name(value));
  }

  /** The files selected so far and why; `reasons` has no entry for a path without a reason. */
  class ExecutionScope {
    var included: set<Path>
    var reasons: Reasons

    constructor ()
      ensures included == {} && reasons == map[]
    {
      included, reasons := {}, map[];
    }

    method AddReason(p: Path, r: Reason)
      modifies this`reasons
      ensures forall q, s :: HasReason(reasons, q, s) <==> old(HasReason(reasons, q, s)) || (q == p && s == r)
    {
      reasons := reasons[p := (if p in reasons then reasons[p] else {}) + {r}];
    }

    /** The headers among the targets of one directive are added and queued, in any order. */
    method AddHeaders(paths: Paths, source: Path, targets: set<Path>, queue: seq<Path>) returns (queue': seq<Path>)
      modifies this
      ensures forall p :: p in included <==> p in old(included) || (p in targets && IsHeader(paths, p))
      ensures forall p, r :: HasReason(reasons, p, r) <==>
                old(HasReason(reasons, p, r)) || (p in targets && IsHeader(paths, p) && r == IncludedBy(source))
      ensures forall p :: p in queue' <==> p in queue || (p in included && p !in old(included))
    {
      queue' := queue;
      var left := targets;
      while left != {}
        invariant left <= targets
        invariant forall p :: p in included <==>
                  p in old(included) || (p in targets && p !in left && IsHeader(paths, p))
        invariant forall p, r :: HasReason(reasons, p, r) <==>
                    || old(HasReason(reasons, p, r))
                    || (p in targets && p !in left && IsHeader(paths, p) && r == IncludedBy(source))
        invariant forall p :: p in queue' <==> p in queue || (p in included && p !in old(included))
        decreases left
      {
        var p :| p in left;
        left := left - {p};
        if IsHeader(paths, p) {
          if p !in included {
            included := included + {p};
            queue' := queue' + [p];
          }
          AddReason(p, IncludedBy(source));
        }
      }
    }

    method ScanFile(paths: Paths, files: Files, byName: map<string, set<Path>>, source: Path, queue: seq<Path>)
      returns (queue': seq<Path>)
      requires forall name, p :: p in NamedIn(byName, name) <==> p in files && paths.name(p) == name
      requires source in files && IsCode(paths, source)
      modifies this
      ensures forall p :: p in included <==> p in old(included) || Edge(paths, files, source, p)
      ensures forall p, r :: HasReason(reasons, p, r) <==>
                old(HasReason(reasons, p, r)) || (Edge(paths, files, source, p) && r == IncludedBy(source))
      ensures forall p :: p in queue' <==> p in queue || (p in included && p !in old(included))
    {
      queue' := queue;
      var values := files[source];
      for k := 0 to |values|
        invariant forall p :: p in included <==> p in old(included) || EdgeBelow(paths, files, source, p, k)
        invariant forall p, r :: HasReason(reasons, p, r) <==>
                    old(HasReason(reasons, p, r)) || (EdgeBelow(paths, files, source, p, k) && r == IncludedBy(source))
        invariant forall p :: p in queue' <==> p in queue || (p in included && p !in old(included))
      {
        var targets := Candidates(paths, files, byName, source, values[k]);
        queue' := AddHeaders(paths, source, targets, queue');
        forall p
          ensures EdgeBelow(paths, files, source, p, k + 1) <==>
                    EdgeBelow(paths, files, source, p, k) || (IsHeader(paths, p) && p in targets)
        {
          EdgeStep(paths, files, source, p, k);
        }
      }
      forall p
        ensures EdgeBelow(paths, files, source, p, |values|) <==> Edge(paths, files, source, p)
      {
      }
    }

    /** The worklist. It ends for every include graph, cyclic or not, and leaves the least closed superset of what was
        included; a file gets the reason that it is included by `source` exactly for the edges out of that set. */
    method AddIncludeClosure(paths: Paths, files: Files)
      modifies this
      ensures IsClosure(paths, files, old(included), included)
      ensures forall p, r :: HasReason(reasons, p, r) <==>
                || old(HasReason(reasons, p, r))
                || (r.IncludedBy? && r.source in included && Edge(paths, files, r.source, p))
    {
      var byName := IndexNames(paths, files);
      var queue := ListCode(paths, included);
      var scanned: set<Path> := {};
      while queue != []
        invariant Scanned(paths, files, old(included), included, queue, scanned)
        invariant forall p, r :: HasReason(reasons, p, r) <==>
                    || old(HasReason(reasons, p, r))
                    || (r.IncludedBy? && r.source in scanned && Edge(paths, files, r.source, p))
        decreases files.Keys - scanned, |queue|
      {
        var source := queue[0];
        ghost var (before, waiting) := (included, queue);
        queue := queue[1..];
        if source in scanned || source !in files {
          SkipKeepsScanned(paths, files, old(included), before, waiting, scanned);
        } else {
          queue := ScanFile(paths, files, byName, source, queue);
          ScanKeepsScanned(paths, files, old(included), before, waiting, scanned, included, queue);
          assert source in files.Keys - scanned;
          scanned := scanned + {source};
        }
      }
      ScannedIsClosure(paths, files, old(included), included, scanned);
    }
  }

  predicate EdgeBelow(paths: Paths, files: Files, source: Path, target: Path, n: nat)
    requires source in files && n <= |files[source]|
  {
    IsHeader(paths, target) && exists k :: 0 <= k < n && MayMean(paths, files, source, files[source][k], target)
  }

  lemma EdgeStep(paths: Paths, files: Files, source: Path, target: Path, n: nat)
    requires source in files && n < |files[source]|
    ensures EdgeBelow(paths, files, source, target, n + 1) <==>
              || EdgeBelow(paths, files, source, target, n)
              || (IsHeader(paths, target) && MayMean(paths, files, source, files[source][n], target))
  {
    if EdgeBelow(paths, files, source, target, n) {
      var k :| 0 <= k < n && MayMean(paths, files, source, files[source][k], target);
      assert k < n + 1;
    }
  }

  method ListCode(paths: Paths, included: set<Path>) returns (queue: seq<Path>)
    ensures forall p :: p in queue <==> p in included && IsCode(paths, p)
  {
    queue := [];
    var left := included;
    while left != {}
      invariant left <= included
      invariant forall p :: p in queue <==> p in included && p !in left && IsCode(paths, p)
      decreases left
    {
      var p :| p in left;
      left := left - {p};
      if IsCode(paths, p) {
        queue := queue + [p];
      }
    }
  }

  // ----- the invariant of the worklist

  ghost predicate Scanned(paths: Paths, files: Files, start: set<Path>, included: set<Path>, queue: seq<Path>,
                          scanned: set<Path>) {
    && start <= included
    && (forall s | start <= s && Closed(paths, files, s) :: included <= s)
    && (forall p | p in scanned :: p in included && p in files && IsCode(paths, p))
    && (forall p, q | p in scanned && Edge(paths, files, p, q) :: q in included)
    && (forall p | p in queue :: p in included && IsCode(paths, p))
    && (forall p | p in included && p in files && IsCode(paths, p) :: p in scanned || p in queue)
  }

  lemma SkipKeepsScanned(paths: Paths, files: Files, start: set<Path>, included: set<Path>, queue: seq<Path>,
                         scanned: set<Path>)
    requires Scanned(paths, files, start, included, queue, scanned) && queue != []
    requires queue[0] in scanned || queue[0] !in files
    ensures Scanned(paths, files, start, included, queue[1..], scanned)
  {
    assert queue == [queue[0]] + queue[1..];
  }

  lemma ScanKeepsScanned(paths: Paths, files: Files, start: set<Path>, included: set<Path>, queue: seq<Path>,
                         scanned: set<Path>, included': set<Path>, queue': seq<Path>)
    requires Scanned(paths, files, start, included, queue, scanned) && queue != []
    requires queue[0] in files
    requires forall p :: p in included' <==> p in included || Edge(paths, files, queue[0], p)
    requires forall p :: p in queue' <==> p in queue[1..] || (p in included' && p !in included)
    ensures Scanned(paths, files, start, included', queue', scanned + {queue[0]})
  {
    var source := queue[0];
    assert source in queue;
    assert queue == [source] + queue[1..];
    forall s | start <= s && Closed(paths, files, s)
      ensures included' <= s
    {
      assert included <= s;
    }
  }

  lemma ScannedIsClosure(paths: Paths, files: Files, start: set<Path>, included: set<Path>, scanned: set<Path>)
    requires Scanned(paths, files, start, included, [], scanned)
    ensures IsClosure(paths, files, start, included)
    ensures forall p, q :: p in scanned && Edge(paths, files, p, q) <==> p in included && Edge(paths, files, p, q)
  {
  }

  // ----- what the closure is

  /** One result for each starting set: neither the order of the queue nor that of the files can matter. */
  lemma ClosureIsUnique(paths: Paths, files: Files, start: set<Path>, a: set<Path>, b: set<Path>)
    requires IsClosure(paths, files, start, a) && IsClosure(paths, files, start, b)
    ensures a == b
  {
    assert a <= b && b <= a;
  }

  lemma ClosureIsMonotone(paths: Paths, files: Files, start: set<Path>, more: set<Path>, a: set<Path>, b: set<Path>)
    requires IsClosure(paths, files, start, a) && IsClosure(paths, files, more, b) && start <= more
    ensures a <= b && IsClosure(paths, files, a, a)
  {
    assert start <= b;
  }

  /** A chain of include edges from a path of `start`. */
  ghost predicate Chain(paths: Paths, files: Files, start: set<Path>, chain: seq<Path>) {
    && chain != [] && chain[0] in start
    && forall k | 0 < k < |chain| :: Edge(paths, files, chain[k - 1], chain[k])
  }

  ghost predicate Reached(paths: Paths, files: Files, start: set<Path>, p: Path) {
    exists chain :: Chain(paths, files, start, chain) && chain[|chain| - 1] == p
  }

  lemma {:induction false} ChainStaysInside(paths: Paths, files: Files, start: set<Path>, s: set<Path>,
                                            chain: seq<Path>)
    requires start <= s && Closed(paths, files, s) && Chain(paths, files, start, chain)
    ensures chain[|chain| - 1] in s
  {
    var n := |chain| - 1;
    if n > 0 {
      var shorter := chain[..n];
      forall k | 0 < k < n
        ensures Edge(paths, files, shorter[k - 1], shorter[k])
      {
        assert Edge(paths, files, chain[k - 1], chain[k]);
      }
      ChainStaysInside(paths, files, start, s, shorter);
      assert Edge(paths, files, chain[n - 1], chain[n]);
    }
  }

  lemma ReachedStep(paths: Paths, files: Files, start: set<Path>, p: Path, q: Path)
    requires Reached(paths, files, start, p) && Edge(paths, files, p, q)
    ensures Reached(paths, files, start, q)
  {
    var chain :| Chain(paths, files, start, chain) && chain[|chain| - 1] == p;
    var longer := chain + [q];
    forall k | 0 < k < |longer|
      ensures Edge(paths, files, longer[k - 1], longer[k])
    {
      assert k < |chain| ==> Edge(paths, files, chain[k - 1], chain[k]);
    }
    assert Chain(paths, files, start, longer) && longer[|longer| - 1] == q;
  }

  /** The closure holds exactly the paths that a chain of includes leads to from the starting set. */
  lemma ClosureIsReachability(paths: Paths, files: Files, start: set<Path>, result: set<Path>, p: Path)
    requires IsClosure(paths, files, start, result)
    ensures p in result <==> Reached(paths, files, start, p)
  {
    if Reached(paths, files, start, p) {
      var chain :| Chain(paths, files, start, chain) && chain[|chain| - 1] == p;
      ChainStaysInside(paths, files, start, result, chain);
    }
    var known := start + files.Keys;
    var reached := set q | q in known && Reached(paths, files, start, q);
    forall q | q in start
      ensures q in reached
    {
      assert Chain(paths, files, start, [q]) && [q][|[q]| - 1] == q;
    }
    forall q, r | q in reached && Edge(paths, files, q, r)
      ensures r in reached
    {
      ReachedStep(paths, files, start, q, r);
    }
    assert Closed(paths, files, reached);
  }

  /** Only headers that are files of the submission are ever added. */
  lemma OnlyHeadersAreAdded(paths: Paths, files: Files, start: set<Path>, result: set<Path>, p: Path)
    requires IsClosure(paths, files, start, result) && p in result && p !in start
    ensures p in files && IsHeader(paths, p)
  {
    ClosureIsReachability(paths, files, start, result, p);
    var chain :| Chain(paths, files, start, chain) && chain[|chain| - 1] == p;
    var n := |chain| - 1;
    assert n > 0 && Edge(paths, files, chain[n - 1], chain[n]);
  }

  // ----- members of the closure

  /** `source` is a code file with an include directive for the header `target`: relative to its own directory, relative
      to the root, or just by the name. */
  ghost predicate Includes(paths: Paths, files: Files, source: Path, target: Path) {
    && source in files && target in files
    && paths.suffix(source) in {".c", ".cc", ".cpp", ".cxx", ".cu", ".f", ".f77", ".f90", ".f95", ".for",
                                ".h", ".hh", ".hpp", ".hxx", ".cuh", ".fh", ".inc"}
    && paths.suffix(target) in {".h", ".hh", ".hpp", ".hxx", ".cuh", ".fh", ".inc"}
    && exists value :: value in files[source] &&
                       (|| paths.join(source, value) == target || paths.normal(value) == target
                        || paths.name(value) == paths.name(target))
  }

  lemma EdgeIffIncludes(paths: Paths, files: Files, source: Path, target: Path)
    ensures Edge(paths, files, source, target) <==> Includes(paths, files, source, target)
  {
    if Edge(paths, files, source, target) {
      var k :| 0 <= k < |files[source]| && MayMean(paths, files, source, files[source][k], target);
      assert files[source][k] in files[source];
    }
    if Includes(paths, files, source, target) {
      var value :| value in files[source] &&
                   (|| paths.join(source, value) == target || paths.normal(value) == target
                    || paths.name(value) == paths.name(target));
      var k :| 0 <= k < |files[source]| && files[source][k] == value;
      assert MayMean(paths, files, source, files[source][k], target);
    }
  }

  lemma NewMembersAreIncluded(paths: Paths, files: Files, start: set<Path>, result: set<Path>, target: Path)
    requires IsClosure(paths, files, start, result) && target in result && target !in start
    ensures exists source :: source in result && Edge(paths, files, source, target)
  {
    if forall source | source in result :: !Edge(paths, files, source, target) {
      var less := result - {target};
      assert start <= less && Closed(paths, files, less);
      assert false;
    }
  }

  /** A path is in the closure exactly if it was there from the start or a member of the closure includes it. */
  lemma MemberIff(paths: Paths, files: Files, start: set<Path>, result: set<Path>, target: Path)
    requires IsClosure(paths, files, start, result)
    ensures target in result <==>
              target in start || exists source :: source in result && Includes(paths, files, source, target)
  {
    forall source
      ensures Edge(paths, files, source, target) <==> Includes(paths, files, source, target)
    {
      EdgeIffIncludes(paths, files, source, target);
    }
    if target in result && target !in start {
      NewMembersAreIncluded(paths, files, start, result, target);
    }
  }
}
