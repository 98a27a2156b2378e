/**
 * The imperative side of frame/frame.go: the Frame that Render draws into,
 * newZBuffer, and Render's nested sweep with its in-place depth buffer.
 * NewZBuffer is proved against Zeros, PlotSample against Step and Render
 * against Sweep, all of DepthBuffer; Frame.Set states its effect directly.
 */
module Renderer {
  import opened DepthBuffer
  import opened Geometry

  /**
   * A frame: Set(x, y, L) applies luminance L at (x, y) when the frame's
   * policy accepts it and reports whether it did. `shown` is the luminance
   * last applied at each point; `calls` records every Set call received.
   */
  class Frame {
    const accepts: Policy
    var shown: map<(int, int), real>
    ghost var calls: seq<Call>

    /** A blank frame with the given drawing policy. */
    constructor (accepts: Policy)
      ensures this.accepts == accepts
      ensures shown == map[] && calls == []
    {
      this.accepts := accepts;
      shown := map[];
      calls := [];
    }

    /** Applies L at (x, y) if the policy accepts it; returns true if it did. */
    method Set(x: int, y: int, lum: real) returns (ok: bool)
      modifies this
      ensures ok == accepts(x, y, lum)
      ensures shown == if ok then old(shown)[(x, y) := lum] else old(shown)
      ensures calls == old(calls) + [Call(x, y, lum)]
    {
      ok := accepts(x, y, lum);
      if ok {
        shown := shown[(x, y) := lum];
      }
      calls := calls + [Call(x, y, lum)];
    }
  }

  /** The rows of `zbuffer` are distinct arrays holding exactly the rows of z. */
  ghost predicate Holds(zbuffer: array<array?<real>>, z: ZBuffer)
    reads zbuffer, set i | 0 <= i < zbuffer.Length :: zbuffer[i]
  {
    && zbuffer.Length == |z|
    && (forall i :: 0 <= i < |z| ==> zbuffer[i] != null && zbuffer[i][..] == z[i])
    && (forall i, j :: 0 <= i < j < zbuffer.Length ==> zbuffer[i] != zbuffer[j])
  }

  /** A depth buffer of `height` fresh rows, each `width` zeros long. */
  method NewZBuffer(width: nat, height: nat) returns (matrix: array<array?<real>>)
    ensures fresh(matrix) && matrix.Length == height
    ensures forall i :: 0 <= i < height ==> matrix[i] != null && fresh(matrix[i]) && matrix[i].Length == width
    ensures forall i, j :: 0 <= i < height && 0 <= j < width ==> matrix[i][j] == 0.0
    ensures Holds(matrix, Zeros(width, height))
  {
    matrix := new array?<real>[height];
    for i := 0 to height
      invariant forall r :: 0 <= r < i ==> matrix[r] != null && fresh(matrix[r]) && matrix[r][..] == Zeros(width, height)[r]
      invariant forall r, s :: 0 <= r < s < i ==> matrix[r] != matrix[s]
    {
      matrix[i] := new real[width](_ => 0.0);
    }
  }

  /**
   * Render's handling of one sample: ask the frame to draw it only if it is
   * nearer than the buffer's value for its cell, and store its inverse depth
   * only if the frame drew it.
   */
  method PlotSample(frame: Frame, zbuffer: array<array?<real>>, ghost p: Pass, s: Sample)
    requires Holds(zbuffer, p.zbuffer) && InCell(p.zbuffer, s)
    requires frame.shown == p.shown && frame.calls == p.calls
    modifies frame, zbuffer[s.xp]
    ensures Holds(zbuffer, Step(p, s, frame.accepts).zbuffer)
    ensures frame.shown == Step(p, s, frame.accepts).shown
    ensures frame.calls == Step(p, s, frame.accepts).calls
  {
    var row := zbuffer[s.xp];
    if s.ooz > row[s.yp] {
      var drawn := frame.Set(s.xp, s.yp, s.lum);
      if drawn {
        row[s.yp] := s.ooz;
      }
    }
  }

  /**
   * Renders the samples of one pose into the frame: theta rows outside, phi
   * samples inside, against a fresh depth buffer. What the frame ends up
   * showing, and every Set call it receives, is that of Sweep over the
   * samples in that order, starting from a buffer of zeros.
   */
  method Render(frame: Frame, samples: seq<seq<Sample>>, scene: Scene)
    requires 0 <= scene.width && 0 <= scene.height
    requires GridOnScreen(samples, scene.width, scene.height)
    modifies frame
    ensures AllInCells(Zeros(scene.width, scene.height), Flatten(samples))
    ensures var r := Sweep(Pass(Zeros(scene.width, scene.height), old(frame.shown), old(frame.calls)),
                           Flatten(samples), frame.accepts);
            frame.shown == r.shown && frame.calls == r.calls
  {
    var zbuffer := NewZBuffer(scene.width, scene.height);
    ghost var start := Pass(Zeros(scene.width, scene.height), frame.shown, frame.calls);
    ghost var swept: seq<Sample> := [];
    for theta := 0 to |samples|
      invariant swept == Flatten(samples[..theta])
      invariant AllInCells(start.zbuffer, swept)
      invariant Holds(zbuffer, Sweep(start, swept, frame.accepts).zbuffer)
      invariant frame.shown == Sweep(start, swept, frame.accepts).shown
      invariant frame.calls == Sweep(start, swept, frame.accepts).calls
      invariant forall i :: 0 <= i < zbuffer.Length ==> fresh(zbuffer[i])
    {
      var row := samples[theta];
      ghost var done := swept;
      for phi := 0 to |row|
        invariant swept == done + row[..phi]
        invariant AllInCells(start.zbuffer, swept)
        invariant Holds(zbuffer, Sweep(start, swept, frame.accepts).zbuffer)
        invariant frame.shown == Sweep(start, swept, frame.accepts).shown
        invariant frame.calls == Sweep(start, swept, frame.accepts).calls
        invariant forall i :: 0 <= i < zbuffer.Length ==> fresh(zbuffer[i])
      {
        assert OnScreen(samples[theta][phi], scene.width, scene.height);
        assert InCell(start.zbuffer, row[phi]);
        SweepExtend(start, swept, row[phi], frame.accepts);
        PlotSample(frame, zbuffer, Sweep(start, swept, frame.accepts), row[phi]);
        PrefixGrows(done, row, phi);
        swept := swept + [row[phi]];
      }
      FlattenStep(samples, theta);
      assert row[..|row|] == row;
    }
    assert samples[..|samples|] == samples;
  }

  lemma PrefixGrows(done: seq<Sample>, row: seq<Sample>, phi: nat)
    requires phi < |row|
    ensures done + row[..phi] + [row[phi]] == done + row[..phi + 1]
  {
    assert row[..phi + 1] == row[..phi] + [row[phi]];
  }
}
