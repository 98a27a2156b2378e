/**
 * The depth-buffered compositing of the torus renderer, on values.
 *
 * Render (frame/frame.go) turns every (theta, phi) pair into a Sample: the
 * cell (xp, yp) it projects to, its inverse depth ooz and its luminance L.
 * Step is what Render does with one sample, Sweep is what it does with all
 * of them in order, and the lemmas say what a sweep leaves in each cell.
 */
module DepthBuffer {

  /** One projected point of the torus. */
  datatype Sample = Sample(xp: int, yp: int, ooz: real, lum: real)

  /** One call Set(x, y, L) made on the frame. */
  datatype Call = Call(x: int, y: int, lum: real)

  /** The frame's answer to Set(x, y, L): true when it applied the luminance. */
  type Policy = (int, int, real) -> bool

  /** Inverse depths, indexed [xp][yp] like Render's buffer. */
  type ZBuffer = seq<seq<real>>

  /**
   * What a render pass has produced so far: the depth buffer, the luminance
   * the frame has applied at each cell, and every Set call made, in order.
   */
  datatype Pass = Pass(zbuffer: ZBuffer, shown: map<(int, int), real>, calls: seq<Call>)

  /** The buffer of newZBuffer: height rows of width zeros. */
  function Zeros(width: nat, height: nat): (z: ZBuffer)
    ensures |z| == height
    ensures forall i :: 0 <= i < height ==> |z[i]| == width
    ensures forall i, j :: 0 <= i < height && 0 <= j < width ==> z[i][j] == 0.0
  {
    seq(height, _ => seq(width, _ => 0.0))
  }

  predicate SameShape(a: ZBuffer, b: ZBuffer) {
    |a| == |b| && forall i :: 0 <= i < |a| ==> |a[i]| == |b[i]|
  }

  /** The buffer has a cell [s.xp][s.yp]; Render has no bounds check of its own. */
  predicate InCell(z: ZBuffer, s: Sample) {
    0 <= s.xp < |z| && 0 <= s.yp < |z[s.xp]|
  }

  predicate AllInCells(z: ZBuffer, samples: seq<Sample>) {
    forall k :: 0 <= k < |samples| ==> InCell(z, samples[k])
  }

  /**
   * The sample falls inside a buffer of `height` rows of `width` entries:
   * xp is checked against the height and yp against the width.
   */
  predicate OnScreen(s: Sample, width: int, height: int) {
    0 <= s.xp < height && 0 <= s.yp < width
  }

  predicate AllOnScreen(samples: seq<Sample>, width: int, height: int) {
    forall k :: 0 <= k < |samples| ==> OnScreen(samples[k], width, height)
  }

  predicate GridOnScreen(grid: seq<seq<Sample>>, width: int, height: int) {
    forall t, q :: 0 <= t < |grid| && 0 <= q < |grid[t]| ==> OnScreen(grid[t][q], width, height)
  }

  /** The sample lands on cell (i, j) and the frame would apply it there. */
  predicate AcceptedAt(s: Sample, accepts: Policy, i: int, j: int) {
    s.xp == i && s.yp == j && accepts(s.xp, s.yp, s.lum)
  }

  /**
   * One sample: the frame is asked to draw it only when it is strictly
   * nearer than what the buffer holds for its cell, and the buffer takes
   * its inverse depth only when the frame reports that it drew.
   */
  function Step(p: Pass, s: Sample, accepts: Policy): (r: Pass)
    requires InCell(p.zbuffer, s)
    ensures SameShape(r.zbuffer, p.zbuffer)
    // not nearer: Set is not called and nothing changes
    ensures s.ooz <= p.zbuffer[s.xp][s.yp] ==> r == p
    // nearer: exactly one Set call, for the sample's cell and luminance
    ensures s.ooz > p.zbuffer[s.xp][s.yp] ==> r.calls == p.calls + [Call(s.xp, s.yp, s.lum)]
    // nearer but declined by the frame: buffer and picture as before
    ensures s.ooz > p.zbuffer[s.xp][s.yp] && !accepts(s.xp, s.yp, s.lum) ==>
              r.zbuffer == p.zbuffer && r.shown == p.shown
    // nearer and drawn: only the sample's cell changes, and it becomes ooz
    ensures s.ooz > p.zbuffer[s.xp][s.yp] && accepts(s.xp, s.yp, s.lum) ==>
              && r.zbuffer[s.xp][s.yp] == s.ooz
              && r.shown == p.shown[(s.xp, s.yp) := s.lum]
              && forall i, j :: 0 <= i < |p.zbuffer| && 0 <= j < |p.zbuffer[i]| && (i, j) != (s.xp, s.yp) ==>
                   r.zbuffer[i][j] == p.zbuffer[i][j]
  {
    if s.ooz > p.zbuffer[s.xp][s.yp] then
      var called := p.(calls := p.calls + [Call(s.xp, s.yp, s.lum)]);
      if accepts(s.xp, s.yp, s.lum) then
        called.(zbuffer := p.zbuffer[s.xp := p.zbuffer[s.xp][s.yp := s.ooz]],
                shown := p.shown[(s.xp, s.yp) := s.lum])
      else
        called
    else
      p
  }

  /** The samples, in sweep order, each handled by Step. */
  function Sweep(p: Pass, samples: seq<Sample>, accepts: Policy): (r: Pass)
    requires AllInCells(p.zbuffer, samples)
    ensures SameShape(r.zbuffer, p.zbuffer)
    decreases |samples|
  {
    if samples == [] then
      p
    else
      var q := Sweep(p, samples[..|samples| - 1], accepts);
      Step(q, samples[|samples| - 1], accepts)
  }

  /** The samples of a theta-outer, phi-inner sweep, row after row. */
  function Flatten(grid: seq<seq<Sample>>): (s: seq<Sample>)
    ensures forall width, height :: GridOnScreen(grid, width, height) ==> AllOnScreen(s, width, height)
  {
    if grid == [] then
      []
    else
      var front := grid[..|grid| - 1];
      assert forall width, height :: GridOnScreen(grid, width, height) ==> GridOnScreen(front, width, height) by {
        forall width, height | GridOnScreen(grid, width, height)
          ensures GridOnScreen(front, width, height)
        {
          forall t, q | 0 <= t < |front| && 0 <= q < |front[t]|
            ensures OnScreen(front[t][q], width, height)
          {
            assert front[t] == grid[t];
          }
        }
      }
      Flatten(front) + grid[|grid| - 1]
  }

  lemma FlattenStep(grid: seq<seq<Sample>>, t: nat)
    requires t < |grid|
    ensures Flatten(grid[..t + 1]) == Flatten(grid[..t]) + grid[t]
  {
    assert grid[..t + 1][..t] == grid[..t];
  }

  /** One more sample is one more Step. */
  lemma SweepExtend(p: Pass, samples: seq<Sample>, t: Sample, accepts: Policy)
    requires AllInCells(p.zbuffer, samples) && InCell(p.zbuffer, t)
    ensures InCell(Sweep(p, samples, accepts).zbuffer, t)
    ensures AllInCells(p.zbuffer, samples + [t])
    ensures Sweep(p, samples + [t], accepts) == Step(Sweep(p, samples, accepts), t, accepts)
  {
    assert (samples + [t])[..|samples|] == samples;
  }

  /** Sweeping a + b is sweeping a and then b. */
  lemma {:induction false} SweepSplit(p: Pass, a: seq<Sample>, b: seq<Sample>, accepts: Policy)
    requires AllInCells(p.zbuffer, a + b)
    ensures AllInCells(p.zbuffer, a)
    ensures AllInCells(Sweep(p, a, accepts).zbuffer, b)
    ensures Sweep(p, a + b, accepts) == Sweep(Sweep(p, a, accepts), b, accepts)
  {
    assert forall k :: 0 <= k < |a| ==> (a + b)[k] == a[k];
    assert forall k :: 0 <= k < |b| ==> (a + b)[|a| + k] == b[k];
    if b == [] {
      assert a + b == a;
    } else {
      var front := b[..|b| - 1];
      assert (a + b)[..|a + b| - 1] == a + front;
      assert (a + front)[..|a|] == a;
      SweepSplit(p, a, front, accepts);
    }
  }

  /**
   * Each cell ends at the largest inverse depth among what it held and the
   * samples at that cell that the frame accepts; `k` is the sample that set
   * it, when one did.
   */
  lemma {:induction false} SweepDepthIsNearestAccepted(p: Pass, samples: seq<Sample>, accepts: Policy, i: int, j: int)
    returns (k: int)
    requires AllInCells(p.zbuffer, samples)
    requires 0 <= i < |p.zbuffer| && 0 <= j < |p.zbuffer[i]|
    ensures var d := Sweep(p, samples, accepts).zbuffer[i][j];
      && d >= p.zbuffer[i][j]
      && (forall k' :: 0 <= k' < |samples| && AcceptedAt(samples[k'], accepts, i, j) ==> samples[k'].ooz <= d)
      && (d == p.zbuffer[i][j] || (0 <= k < |samples| && AcceptedAt(samples[k], accepts, i, j) && samples[k].ooz == d))
  {
    if samples == [] {
      k := 0;
    } else {
      var n := |samples| - 1;
      var front, t := samples[..n], samples[n];
      assert forall k' :: 0 <= k' < n ==> samples[k'] == front[k'];
      k := SweepDepthIsNearestAccepted(p, front, accepts, i, j);
      var q := Sweep(p, front, accepts);
      if t.ooz > q.zbuffer[t.xp][t.yp] && AcceptedAt(t, accepts, i, j) {
        k := n;
      }
    }
  }

  /** A cell's depth never goes down while the sweep runs. */
  lemma DepthNeverDecreasesDuringSweep(p: Pass, samples: seq<Sample>, accepts: Policy, m: nat, n: nat, i: int, j: int)
    requires AllInCells(p.zbuffer, samples)
    requires m <= n <= |samples|
    requires 0 <= i < |p.zbuffer| && 0 <= j < |p.zbuffer[i]|
    ensures Sweep(p, samples[..m], accepts).zbuffer[i][j] <= Sweep(p, samples[..n], accepts).zbuffer[i][j]
  {
    assert samples[..n] == samples[..m] + samples[m..n];
    SweepSplit(p, samples[..m], samples[m..n], accepts);
    var _ := SweepDepthIsNearestAccepted(Sweep(p, samples[..m], accepts), samples[m..n], accepts, i, j);
  }

  /**
   * What the frame shows at a cell after the sweep: if the cell's depth was
   * raised, the luminance of the first sample, in sweep order, with the
   * largest accepted inverse depth there (later ties do not replace it);
   * otherwise whatever it showed before.
   */
  lemma {:induction false} SweepShowsFirstNearest(p: Pass, samples: seq<Sample>, accepts: Policy, i: int, j: int)
    returns (k: int)
    requires AllInCells(p.zbuffer, samples)
    requires 0 <= i < |p.zbuffer| && 0 <= j < |p.zbuffer[i]|
    ensures var r := Sweep(p, samples, accepts);
      if r.zbuffer[i][j] == p.zbuffer[i][j] then
        && ((i, j) in r.shown <==> (i, j) in p.shown)
        && ((i, j) in p.shown ==> r.shown[(i, j)] == p.shown[(i, j)])
      else
        && 0 <= k < |samples|
        && AcceptedAt(samples[k], accepts, i, j)
        && samples[k].ooz == r.zbuffer[i][j]
        && (i, j) in r.shown && r.shown[(i, j)] == samples[k].lum
        && forall k' :: 0 <= k' < k && AcceptedAt(samples[k'], accepts, i, j) ==> samples[k'].ooz < samples[k].ooz
  {
    if samples == [] {
      k := 0;
    } else {
      var n := |samples| - 1;
      var front, t := samples[..n], samples[n];
      assert forall k' :: 0 <= k' < n ==> samples[k'] == front[k'];
      k := SweepShowsFirstNearest(p, front, accepts, i, j);
      var _ := SweepDepthIsNearestAccepted(p, front, accepts, i, j);
      var q := Sweep(p, front, accepts);
      var r := Sweep(p, samples, accepts);
      assert r == Step(q, t, accepts);
      if t.ooz > q.zbuffer[t.xp][t.yp] && AcceptedAt(t, accepts, i, j) {
        k := n;
      } else {
        StepKeepsUntouchedCell(q, t, accepts, i, j);
      }
    }
  }

  /** A step that does not draw at (i, j) leaves that cell's depth and picture alone. */
  lemma StepKeepsUntouchedCell(p: Pass, s: Sample, accepts: Policy, i: int, j: int)
    requires InCell(p.zbuffer, s)
    requires 0 <= i < |p.zbuffer| && 0 <= j < |p.zbuffer[i]|
    requires !(s.ooz > p.zbuffer[s.xp][s.yp] && AcceptedAt(s, accepts, i, j))
    ensures var r := Step(p, s, accepts);
      && r.zbuffer[i][j] == p.zbuffer[i][j]
      && ((i, j) in r.shown <==> (i, j) in p.shown)
      && ((i, j) in p.shown ==> r.shown[(i, j)] == p.shown[(i, j)])
  {
  }

  /**
   * Cells start at 0 and only grow, so a sample with ooz <= 0 never reaches
   * Set: handling it changes nothing, not even the list of calls.
   */
  lemma NonPositiveDepthNeverReachesSet(p: Pass, samples: seq<Sample>, accepts: Policy, k: nat)
    requires AllInCells(p.zbuffer, samples)
    requires forall i, j :: 0 <= i < |p.zbuffer| && 0 <= j < |p.zbuffer[i]| ==> p.zbuffer[i][j] >= 0.0
    requires k < |samples| && samples[k].ooz <= 0.0
    ensures AllInCells(p.zbuffer, samples[..k + 1])
    ensures Sweep(p, samples[..k + 1], accepts) == Sweep(p, samples[..k], accepts)
  {
    var t := samples[k];
    assert samples[..k + 1][..k] == samples[..k];
    var _ := SweepDepthIsNearestAccepted(p, samples[..k], accepts, t.xp, t.yp);
  }

  /** The depth buffer and the picture do not depend on the calls made before. */
  lemma {:induction false} SweepIgnoresCalls(p: Pass, p': Pass, samples: seq<Sample>, accepts: Policy)
    requires p.zbuffer == p'.zbuffer && p.shown == p'.shown
    requires AllInCells(p.zbuffer, samples)
    ensures Sweep(p, samples, accepts).zbuffer == Sweep(p', samples, accepts).zbuffer
    ensures Sweep(p, samples, accepts).shown == Sweep(p', samples, accepts).shown
  {
    if samples != [] {
      SweepIgnoresCalls(p, p', samples[..|samples| - 1], accepts);
    }
  }

  /**
   * A sample the frame declines leaves no trace in the buffer or the
   * picture: in particular it never blocks a later, farther sample at the
   * same cell that the frame accepts.
   */
  lemma RejectedSampleLeavesNoTrace(p: Pass, a: seq<Sample>, t: Sample, b: seq<Sample>, accepts: Policy)
    requires AllInCells(p.zbuffer, a + [t] + b)
    requires !accepts(t.xp, t.yp, t.lum)
    ensures AllInCells(p.zbuffer, a + b)
    ensures Sweep(p, a + [t] + b, accepts).zbuffer == Sweep(p, a + b, accepts).zbuffer
    ensures Sweep(p, a + [t] + b, accepts).shown == Sweep(p, a + b, accepts).shown
  {
    var whole := a + [t] + b;
    assert forall k :: 0 <= k < |a| ==> whole[k] == a[k];
    assert forall k :: 0 <= k < |b| ==> whole[|a| + 1 + k] == b[k];
    assert whole[|a|] == t;
    SweepSplit(p, a + [t], b, accepts);
    SweepSplit(p, a, [t], accepts);
    var q := Sweep(p, a, accepts);
    assert Sweep(q, [t], accepts) == Step(q, t, accepts) by {
      assert [t][..0] == [];
    }
    SweepSplit(p, a, b, accepts);
    SweepIgnoresCalls(Sweep(p, a + [t], accepts), q, b, accepts);
  }

  /**
   * A frame that, like the text frame, draws only positive luminance: a
   * back-facing sample in front is declined, and the farther lit sample
   * behind it at the same cell is still drawn and committed.
   */
  lemma BackFacingSampleDoesNotHideLitOne()
    ensures var litOnly: Policy := (x: int, y: int, lum: real) => lum > 0.0;
            var near, far := Sample(0, 0, 0.5, -1.0), Sample(0, 0, 0.25, 0.75);
            var r := Sweep(Pass(Zeros(1, 1), map[], []), [near, far], litOnly);
            && r.zbuffer == [[0.25]]
            && r.shown == map[(0, 0) := 0.75]
            && r.calls == [Call(0, 0, -1.0), Call(0, 0, 0.75)]
  {
    var litOnly: Policy := (x: int, y: int, lum: real) => lum > 0.0;
    var near, far := Sample(0, 0, 0.5, -1.0), Sample(0, 0, 0.25, 0.75);
    var p := Pass(Zeros(1, 1), map[], []);
    assert Zeros(1, 1)[0] == [0.0];
    assert p.zbuffer == [[0.0]];
    assert [near, far][..1] == [near];
    assert [near][..0] == [];
    // the nearer sample passes the depth test, but the frame declines it
    var q := Step(p, near, litOnly);
    assert Sweep(p, [near], litOnly) == q;
    assert q == p.(calls := [Call(0, 0, -1.0)]);
    // the farther one still beats the untouched 0 and is drawn
    assert Sweep(p, [near, far], litOnly) == Step(q, far, litOnly);
    assert [0.0][0 := 0.25] == [0.25];
    assert [[0.0]][0 := [0.25]] == [[0.25]];
  }
}
