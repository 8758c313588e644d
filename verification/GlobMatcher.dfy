/**
  Capture-policy globs: what a glob means, and the backtracking matcher that
  remembers its failures.
 */
module GlobMatcher {
  import opened Layers

  // ----- character classes -----

  datatype Range = Range(low: char, high: char)

  predicate InRanges(ranges: seq<Range>, c: char) {
    exists i :: 0 <= i < |ranges| && ranges[i].low <= c <= ranges[i].high
  }

  // The next unescaped ']' from i on.
  function Closing(glob: string, i: nat): (close: Option<nat>)
    ensures close.Some? ==> i <= close.value < |glob|
    decreases |glob| - i
  {
    if i >= |glob| then None
    else if glob[i] == ']' then Some(i)
    else Closing(glob, if glob[i] == '\\' then i + 2 else i + 1)
  }

  predicate Negated(glob: string, open: nat) {
    open + 1 < |glob| && (glob[open + 1] == '!' || glob[open + 1] == '^')
  }

  function FirstMember(glob: string, open: nat): nat {
    if Negated(glob, open) then open + 2 else open + 1
  }

  // Just past the class that opens here; a ']' in first place is a member.
  function ClassEnd(glob: string, open: nat): (end: Option<nat>)
    ensures end.Some? ==> open + 2 <= end.value <= |glob| && FirstMember(glob, open) < end.value
  {
    var first := FirstMember(glob, open);
    match Closing(glob, if first < |glob| && glob[first] == ']' then first + 1 else first)
    case None => None
    case Some(close) => Some(close + 1)
  }

  // The member that starts at i, a character or a range, escaped or not, and where the next one starts.
  function Member(glob: string, i: nat, close: nat): (r: (Range, nat))
    requires i < close < |glob|
    ensures i < r.1
  {
    var a := if glob[i] == '\\' then i + 1 else i;
    if a + 2 < close && glob[a + 1] == '-' then
      var b := if glob[a + 2] == '\\' && a + 3 < close then a + 3 else a + 2;
      (Range(glob[a], glob[b]), b + 1)
    else (Range(glob[a], glob[a]), a + 1)
  }

  // The members written in glob[i..close].
  function Members(glob: string, i: nat, close: nat): seq<Range>
    requires close < |glob|
    decreases close - i
  {
    if i >= close then []
    else
      var (range, next) := Member(glob, i, close);
      [range] + Members(glob, next, close)
  }

  // ----- what a glob means -----

  datatype Piece =
    | Exact(c: char)
    | AnyOne                                        // ?
    | OneOf(negated: bool, ranges: seq<Range>)      // [...]
    | Run                                           // *: characters of one segment
    | Dirs                                          // **/: whole directories
    | Everything                                    // a final whole-segment **
    | Never                                         // malformed

  function StarsEnd(glob: string, i: nat): (j: nat)
    requires i <= |glob|
    ensures i <= j <= |glob| && (forall k | i <= k < j :: glob[k] == '*') && (j < |glob| ==> glob[j] != '*')
    decreases |glob| - i
  {
    if i < |glob| && glob[i] == '*' then StarsEnd(glob, i + 1) else i
  }

  // Two or more stars that fill a segment.
  predicate WholeSegment(glob: string, i: nat, j: nat)
    requires i <= j <= |glob|
  {
    j - i >= 2 && (i == 0 || glob[i - 1] == '/') && (j == |glob| || glob[j] == '/')
  }

  function Pieces(glob: string, i: nat): seq<Piece>
    requires i <= |glob|
    decreases |glob| - i
  {
    if i == |glob| then []
    else match glob[i]
      case '*' =>
        var j := StarsEnd(glob, i + 1);
        if !WholeSegment(glob, i, j) then [Run] + Pieces(glob, j)
        else if j == |glob| then [Everything]
        else [Dirs] + Pieces(glob, j + 1)
      case '?' => [AnyOne] + Pieces(glob, i + 1)
      case '[' =>
        (match ClassEnd(glob, i)
         case None => [Never]
         case Some(end) => [OneOf(Negated(glob, i), Members(glob, FirstMember(glob, i), end - 1))] + Pieces(glob, end))
      case '\\' => if i + 1 < |glob| then [Exact(glob[i + 1])] + Pieces(glob, i + 2) else [Never]
      case c => [Exact(c)] + Pieces(glob, i + 1)
  }

  predicate MatchesOne(p: Piece, c: char) {
    match p
    case Exact(d) => c == d
    case AnyOne => c != '/'
    case OneOf(negated, ranges) => c != '/' && InRanges(ranges, c) != negated
    case _ => false
  }

  // The memo-free meaning.
  ghost predicate Matches(ps: seq<Piece>, text: string) {
    if ps == [] then text == ""
    else match ps[0]
      case Run => exists k :: 0 <= k <= |text| && '/' !in text[..k] && Matches(ps[1..], text[k..])
      case Dirs => exists k :: 0 <= k <= |text| && (k == 0 || text[k - 1] == '/') && Matches(ps[1..], text[k..])
      case Everything => true
      case _ => text != "" && MatchesOne(ps[0], text[0]) && Matches(ps[1..], text[1..])
  }

  ghost predicate GlobMatches(glob: string, text: string) {
    Matches(Pieces(glob, 0), text)
  }

  // ----- scanning -----

  method FindClassEnd(glob: string, open: nat) returns (end: Option<nat>)
    requires open < |glob|
    ensures end == ClassEnd(glob, open)
  {
    var index := open + 1;
    if index < |glob| && (glob[index] == '!' || glob[index] == '^') { index := index + 1; }
    if index < |glob| && glob[index] == ']' { index := index + 1; }
    ghost var first := index;
    while index < |glob| && glob[index] != ']'
      invariant Closing(glob, index) == Closing(glob, first)
      decreases |glob| - index
    {
      if glob[index] == '\\' { index := index + 1; }
      index := index + 1;
    }
    end := if index < |glob| then Some(index + 1) else None;
  }

  method ReadMember(glob: string, start: nat, close: nat) returns (low: char, high: char, next: nat)
    requires start < close < |glob|
    ensures (Range(low, high), next) == Member(glob, start, close)
  {
    var index := start;
    if glob[index] == '\\' { index := index + 1; }
    low := glob[index];
    high := low;
    index := index + 1;
    if index + 1 < close && glob[index] == '-' {
      index := index + 1;
      if glob[index] == '\\' && index + 1 < close { index := index + 1; }
      high := glob[index];
      index := index + 1;
    }
    next := index;
  }

  method ClassMatches(glob: string, open: nat, end: nat, byte: char) returns (matches: bool)
    requires open < |glob| && ClassEnd(glob, open) == Some(end)
    ensures matches == (InRanges(Members(glob, FirstMember(glob, open), end - 1), byte) != Negated(glob, open))
  {
    hide ClassEnd, Closing, InRanges, Member;
    var close, index, negated := end - 1, open + 1, false;
    if glob[index] == '!' || glob[index] == '^' {
      negated := true;
      index := index + 1;
    }
    var matched := false;
    ghost var first := index;
    while index < close
      invariant first <= index
      invariant (matched || InRanges(Members(glob, index, close), byte)) == InRanges(Members(glob, first, close), byte)
      decreases close - index
    {
      var low, high, next := ReadMember(glob, index, close);
      RangesCons(Range(low, high), Members(glob, next, close), byte);
      if low <= byte && byte <= high { matched := true; }
      index := next;
    }
    NoRanges(byte);
    matches := matched != negated;
  }

  lemma NoRanges(c: char)
    ensures !InRanges([], c)
  {
  }

  lemma RangesCons(r: Range, rest: seq<Range>, c: char)
    ensures InRanges([r] + rest, c) <==> (r.low <= c <= r.high) || InRanges(rest, c)
  {
    var all := [r] + rest;
    if r.low <= c <= r.high { assert all[0].low <= c <= all[0].high; }
    if i :| 0 <= i < |rest| && rest[i].low <= c <= rest[i].high { assert all[i + 1].low <= c <= all[i + 1].high; }
  }

  // text.find('/', start)
  method FindSlash(text: string, start: nat) returns (slash: Option<nat>)
    requires start <= |text|
    ensures slash.None? ==> '/' !in text[start..]
    ensures slash.Some? ==>
      start <= slash.value < |text| && text[slash.value] == '/' && '/' !in text[start..slash.value]
  {
    var i := start;
    while i < |text| && text[i] != '/'
      invariant start <= i <= |text| && '/' !in text[start..i]
    {
      i := i + 1;
    }
    slash := if i < |text| then Some(i) else None;
  }

  // ----- the matcher -----

  lemma Distribute(w: int, a: int, b: int)
    ensures w * (a + b) == w * a + w * b
  {
  }

  lemma StateDecodes(g: nat, t: nat, width: nat)
    requires t < width
    ensures (g * width + t) / width == g && (g * width + t) % width == t
  {
    var s := g * width + t;
    assert s == width * (s / width) + s % width;
    if s / width > g {
      assert width * (s / width) >= width * (g + 1) by { MulMonotone(width, g + 1, s / width); }
    } else if s / width < g {
      assert width * g >= width * (s / width + 1) by { MulMonotone(width, s / width + 1, g); }
    }
  }

  lemma MulMonotone(w: nat, a: int, b: int)
    requires a <= b
    ensures w * a <= w * b
  {
  }

  class Matcher {
    const glob: string
    const text: string
    const failed: array<bool>
    // The states evaluated so far, and the number of calls.
    ghost var evaluated: set<nat>
    ghost var calls: nat

    constructor (glob: string, text: string)
      ensures this.glob == glob && this.text == text && Valid() && evaluated == {} && calls == 0 && fresh(failed)
    {
      this.glob, this.text := glob, text;
      MulMonotone(|text| + 1, 0, |glob| + 1);
      failed := new bool[(|glob| + 1) * (|text| + 1)](i => false);
      evaluated, calls := {}, 0;
    }

    ghost function Width(): nat { |text| + 1 }

    ghost predicate At(g: nat, t: nat)
      requires g <= |glob| && t <= |text|
    {
      Matches(Pieces(glob, g), text[t..])
    }

    // What the state with index s stands for.
    ghost predicate StateMatches(s: nat) {
      var g, t := s / Width(), s % Width();
      g <= |glob| && At(g, t)
    }

    // The table records nothing but true failures.
    ghost predicate Valid()
      reads this, failed
    {
      && failed.Length == (|glob| + 1) * Width()
      && (forall s {:trigger failed[s]} | 0 <= s < failed.Length && failed[s] :: !StateMatches(s))
      && (forall s | s in evaluated :: s < failed.Length)
    }

    // Every evaluated state has failed or is still being evaluated, below glob index g.
    ghost predicate Pending(g: nat)
      requires Valid()
      reads this, failed
    {
      forall s | s in evaluated :: failed[s] || s / Width() < g
    }

    twostate predicate Grown()
      reads this, failed
      requires old(Valid()) && Valid()
    {
      && old(evaluated) <= evaluated
      && (forall s | 0 <= s < failed.Length && old(failed[s]) :: failed[s])
      && (forall s | s in evaluated :: failed[s] || s in old(evaluated))
    }

    // Calls pay for the states they evaluate: one each, and a full row of further calls.
    twostate predicate Within(own: nat)
      reads this
    {
      calls <= old(calls) + own + Width() * (|evaluated| - |old(evaluated)|)
    }

    // A run of characters of one segment, then the rest of the glob.
    ghost predicate RunAt(from: nat, t: nat)
      requires from <= |glob| && t <= |text|
    {
      exists s :: t <= s <= |text| && '/' !in text[t..s] && At(from, s)
    }

    ghost predicate SegmentStart(t: nat, s: nat)
      requires t <= s <= |text|
    {
      s == t || text[s - 1] == '/'
    }

    // Whole directories, then the rest.
    ghost predicate DirsAt(from: nat, t: nat)
      requires from <= |glob| && t <= |text|
    {
      exists s :: t <= s <= |text| && SegmentStart(t, s) && At(from, s)
    }

    lemma RunPiece(from: nat, t: nat)
      requires from <= |glob| && t <= |text|
      ensures Matches([Run] + Pieces(glob, from), text[t..]) <==> RunAt(from, t)
    {
      var ps, rest := [Run] + Pieces(glob, from), text[t..];
      assert ps[1..] == Pieces(glob, from);
      hide Pieces;
      if Matches(ps, rest) {
        var k :| 0 <= k <= |rest| && '/' !in rest[..k] && Matches(ps[1..], rest[k..]);
        assert rest[k..] == text[t + k..] && rest[..k] == text[t..t + k];
        assert At(from, t + k);
      }
      if RunAt(from, t) {
        var s :| t <= s <= |text| && '/' !in text[t..s] && At(from, s);
        assert rest[s - t..] == text[s..] && rest[..s - t] == text[t..s];
      }
    }

    lemma DirsPiece(from: nat, t: nat)
      requires from <= |glob| && t <= |text|
      ensures Matches([Dirs] + Pieces(glob, from), text[t..]) <==> DirsAt(from, t)
    {
      var ps, rest := [Dirs] + Pieces(glob, from), text[t..];
      assert ps[1..] == Pieces(glob, from);
      hide Pieces;
      if Matches(ps, rest) {
        var k :| 0 <= k <= |rest| && (k == 0 || rest[k - 1] == '/') && Matches(ps[1..], rest[k..]);
        assert rest[k..] == text[t + k..];
        assert SegmentStart(t, t + k) && At(from, t + k);
      }
      if DirsAt(from, t) {
        var s :| t <= s <= |text| && SegmentStart(t, s) && At(from, s);
        assert rest[s - t..] == text[s..];
      }
    }

    // A piece that takes one character.
    lemma OnePiece(p: Piece, from: nat, t: nat)
      requires from <= |glob| && t <= |text| && !p.Run? && !p.Dirs? && !p.Everything?
      ensures Matches([p] + Pieces(glob, from), text[t..]) <==> t < |text| && MatchesOne(p, text[t]) && At(from, t + 1)
    {
      var ps, rest := [p] + Pieces(glob, from), text[t..];
      assert ps[1..] == Pieces(glob, from);
      assert t < |text| ==> rest[1..] == text[t + 1..];
    }

    lemma StarAt(g: nat, t: nat, after: nat)
      requires g < |glob| && glob[g] == '*' && t <= |text| && after == StarsEnd(glob, g)
      ensures At(g, t) == if !WholeSegment(glob, g, after) then RunAt(after, t)
                          else after == |glob| || DirsAt(after + 1, t)
    {
      hide RunAt, DirsAt;
      RunPiece(after, t);
      if after < |glob| { DirsPiece(after + 1, t); }
    }

    lemma EndAt(t: nat)
      requires t <= |text|
      ensures At(|glob|, t) <==> t == |text|
    {
    }

    // What is not a star needs a character.
    lemma NoText(g: nat)
      requires g < |glob| && glob[g] != '*'
      ensures !At(g, |text|)
    {
      assert text[|text|..] == "";
    }

    // One character of text against one unit of the glob that is not a star.
    method StepOver(g: nat, t: nat) returns (next: Option<nat>)
      requires g < |glob| && t < |text| && glob[g] != '*'
      ensures next.None? ==> !At(g, t)
      ensures next.Some? ==> g < next.value <= |glob| && At(g, t) == At(next.value, t + 1)
    {
      if glob[g] == '[' {
        next := StepOverClass(g, t);
        return;
      }
      hide Matches, Members, ClassEnd, StarsEnd, WholeSegment;
      var index := g;
      var current := text[t];
      if glob[index] == '?' {
        OnePiece(AnyOne, g + 1, t);
        if current == '/' { return None; }
        index := index + 1;
      } else {
        OnePiece(Never, |glob|, t);
        assert glob[g] == '\\' && g + 1 == |glob| ==> Pieces(glob, g) == [Never] + Pieces(glob, |glob|);
        if glob[index] == '\\' { index := index + 1; }
        if index < |glob| { OnePiece(Exact(glob[index]), index + 1, t); }
        if index >= |glob| || glob[index] != current { return None; }
        index := index + 1;
      }
      return Some(index);
    }

    method StepOverClass(g: nat, t: nat) returns (next: Option<nat>)
      requires g < |glob| && t < |text| && glob[g] == '['
      ensures next.None? ==> !At(g, t)
      ensures next.Some? ==> g < next.value <= |glob| && At(g, t) == At(next.value, t + 1)
    {
      hide Matches, Members, StarsEnd, WholeSegment, ClassEnd;
      var current := text[t];
      var end := FindClassEnd(glob, g);
      if end.None? {
        OnePiece(Never, |glob|, t);
        assert Pieces(glob, g) == [Never] + Pieces(glob, |glob|);
        return None;
      }
      OnePiece(OneOf(Negated(glob, g), Members(glob, FirstMember(glob, g), end.value - 1)), end.value, t);
      if current == '/' { return None; }
      var member := ClassMatches(glob, g, end.value, current);
      next := if member then end else None;
    }

    /**
      Returns whether the glob from gi matches the text from ti.  A state is evaluated at most
      once: on entry it is not among the evaluated ones unless it has failed.
     */
    method MatchFrom(gi: nat, ti: nat) returns (matched: bool)
      requires gi <= |glob| && ti <= |text| && Valid() && Pending(gi)
      modifies this`evaluated, this`calls, failed
      ensures Valid() && matched == At(gi, ti)
      ensures !matched ==> Grown()
      ensures Within(1)
      decreases |glob| - gi, 1
    {
      calls := calls + 1;
      var state := gi * (|text| + 1) + ti;
      StateDecodes(gi, ti, Width());
      MulMonotone(Width(), gi + 1, |glob| + 1);
      if failed[state] { return false; }
      assert state !in evaluated;
      evaluated := evaluated + {state};
      Distribute(Width(), 1, |evaluated| - 1 - |old(evaluated)|);
      matched := Evaluate(gi, ti);
      Distribute(Width(), 1, |evaluated| - |old(evaluated)| - 1);
      if !matched { failed[state] := true; }
    }

    method Evaluate(gi: nat, ti: nat) returns (matched: bool)
      requires gi <= |glob| && ti <= |text| && Valid() && Pending(gi + 1)
      modifies this`evaluated, this`calls, failed
      ensures Valid() && matched == At(gi, ti)
      ensures !matched ==> Grown()
      ensures Within(Width())
      decreases |glob| - gi, 0
    {
      hide At, RunAt, DirsAt;
      Distribute(Width(), 0, |evaluated| - |old(evaluated)|);
      var globIndex: nat, textIndex: nat := gi, ti;
      while globIndex < |glob|
        invariant gi <= globIndex <= |glob| && textIndex <= |text|
        invariant At(globIndex, textIndex) == At(gi, ti)
        invariant unchanged(this) && unchanged(failed)
      {
        if glob[globIndex] == '*' {
          var after := globIndex;
          while after < |glob| && glob[after] == '*'
            invariant globIndex <= after <= |glob| && StarsEnd(glob, after) == StarsEnd(glob, globIndex)
          {
            after := after + 1;
          }
          var starts := globIndex == 0 || glob[globIndex - 1] == '/';
          var ends := after == |glob| || glob[after] == '/';
          StarAt(globIndex, textIndex, after);
          if after - globIndex >= 2 && starts && ends {
            if after == |glob| { return true; }
            matched := TryDirs(after + 1, textIndex);
            return;
          }
          matched := TryRun(after, textIndex);
          return;
        }
        if textIndex >= |text| {
          NoText(globIndex);
          return false;
        }
        var next := StepOver(globIndex, textIndex);
        if next.None? { return false; }
        globIndex := next.value;
        textIndex := textIndex + 1;
      }
      EndAt(textIndex);
      matched := textIndex == |text|;
    }

    method TryRun(from: nat, ti: nat) returns (matched: bool)
      requires from <= |glob| && ti <= |text| && Valid() && Pending(from)
      modifies this`evaluated, this`calls, failed
      ensures Valid() && matched == RunAt(from, ti)
      ensures !matched ==> Grown()
      ensures Within(Width())
      decreases |glob| - from, 2
    {
      var start := ti;
      while start <= |text|
        invariant ti <= start <= |text| + 1 && Valid() && Grown() && Pending(from)
        invariant Within(start - ti)
        invariant '/' !in text[ti..if start <= |text| then start else |text|]
        invariant forall s | ti <= s < start :: !At(from, s)
      {
        ghost var before := |evaluated|;
        matched := MatchFrom(from, start);
        Distribute(Width(), before - |old(evaluated)|, |evaluated| - before);
        if matched { return; }
        if start < |text| && text[start] == '/' { break; }
        start := start + 1;
      }
      matched := false;
      forall s | ti <= s <= |text| ensures '/' !in text[ti..s] ==> !At(from, s) {
        if s > start { assert text[ti..s][start - ti] == '/'; }
      }
    }

    method TryDirs(from: nat, ti: nat) returns (matched: bool)
      requires from <= |glob| && ti <= |text| && Valid() && Pending(from)
      modifies this`evaluated, this`calls, failed
      ensures Valid() && matched == DirsAt(from, ti)
      ensures !matched ==> Grown()
      ensures Within(Width())
      decreases |glob| - from, 2
    {
      var start := ti;
      while true
        invariant ti <= start <= |text| && Valid() && Grown() && Pending(from)
        invariant Within(start - ti)
        invariant SegmentStart(ti, start)
        invariant forall s | ti <= s < start && SegmentStart(ti, s) :: !At(from, s)
        decreases |text| - start
      {
        ghost var before := |evaluated|;
        matched := MatchFrom(from, start);
        Distribute(Width(), before - |old(evaluated)|, |evaluated| - before);
        if matched { return; }
        var slash := FindSlash(text, start);
        if slash.None? {
          forall s | start < s <= |text| ensures !SegmentStart(ti, s) {
            assert text[start..][s - 1 - start] == text[s - 1];
          }
          return;
        }
        forall s | start < s <= slash.value ensures !SegmentStart(ti, s) {
          assert text[start..slash.value][s - 1 - start] == text[s - 1];
        }
        start := slash.value + 1;
      }
    }
  }

  /**
    The matcher returns true exactly when the glob means the text, within a number of calls that
    is polynomial in both lengths.
   */
  method MatchCaptureGlob(glob: string, text: string) returns (matched: bool, ghost calls: nat)
    ensures matched == GlobMatches(glob, text)
    ensures calls <= 1 + (|text| + 1) * ((|glob| + 1) * (|text| + 1))
  {
    var matcher := new Matcher(glob, text);
    assert text[0..] == text;
    matched := matcher.MatchFrom(0, 0);
    calls := matcher.calls;
    BoundedSet(matcher.evaluated, matcher.failed.Length);
    MulMonotone(|text| + 1, |matcher.evaluated|, matcher.failed.Length);
  }

  lemma BoundedSet(s: set<nat>, n: nat)
    requires forall x | x in s :: x < n
    ensures |s| <= n
  {
    if n == 0 {
      assert s == {};
    } else {
      BoundedSet(s - {n - 1}, n - 1);
      assert n - 1 in s ==> s == s - {n - 1} + {n - 1};
      assert n - 1 !in s ==> s == s - {n - 1};
    }
  }
}
