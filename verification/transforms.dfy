/** Waves and the transforms a hyperlane applies to them. */
module Transforms {
  import opened Wrappers
  import opened Loc

  datatype Agent = HyperUser | Anonymous | PointAgent(point: Point)

  datatype Recipients = Single(surface: Surface) | Multi(surfaces: seq<Surface>) | Watchers | Stars

  datatype Wave = Wave(id: nat, from: Surface, to: Recipients, agent: Agent)

  datatype Transform =
    | FromTransform(from: Surface)
    | AgentTransform(agent: Agent)
    | ToTransform(to: Surface)
    | LayerTransform(layer: Layer)
  {
    /** A layer transform unwraps the single recipient; on any other wave it panics. */
    function Filter(wave: Wave): Option<Wave> {
      match this
      case FromTransform(from) => Some(wave.(from := from))
      case AgentTransform(agent) => Some(wave.(agent := agent))
      case ToTransform(to) => Some(wave.(to := Single(to)))
      case LayerTransform(layer) =>
        if wave.to.Single? then Some(wave.(to := Single(wave.to.surface.WithLayer(layer)))) else None
    }
  }

  /** The transforms in order; the last one is applied last. */
  function FilterAll(transforms: seq<Transform>, wave: Wave): (r: Option<Wave>)
    ensures r.Some? ==> r.value.id == wave.id
  {
    if transforms == [] then Some(wave)
    else
      match FilterAll(transforms[..|transforms| - 1], wave)
      case None => None
      case Some(w) => transforms[|transforms| - 1].Filter(w)
  }

  lemma {:induction false} FilterAllConcat(a: seq<Transform>, b: seq<Transform>, wave: Wave)
    ensures FilterAll(a + b, wave) ==
            match FilterAll(a, wave) case None => None case Some(w) => FilterAll(b, w)
    decreases |b|
  {
    if b == [] {
      assert a + b == a;
    } else {
      FilterAllConcat(a, b[..|b| - 1], wave);
      assert (a + b)[..|a + b| - 1] == a + b[..|b| - 1];
    }
  }

  ghost predicate SameButLayer(a: Recipients, b: Recipients) {
    a.Single? && b.Single? && a.surface.WithLayer(Core) == b.surface.WithLayer(Core)
  }

  /** Waves whose recipients differ only in the layer stay so, and the rest is treated alike. */
  lemma {:induction false} LayersOnly(transforms: seq<Transform>, a: Wave, b: Wave)
    requires SameButLayer(a.to, b.to) && a.(to := b.to) == b
    ensures FilterAll(transforms, a).Some? && FilterAll(transforms, b).Some?
    ensures var x, y := FilterAll(transforms, a).value, FilterAll(transforms, b).value;
            SameButLayer(x.to, y.to) && x.(to := y.to) == y
  {
    if transforms != [] {
      LayersOnly(transforms[..|transforms| - 1], a, b);
    }
  }

  lemma {:induction false} OnlySenderDiffers(transforms: seq<Transform>, a: Wave, b: Wave)
    requires a.(from := b.from, agent := b.agent) == b
    ensures FilterAll(transforms, a).Some? <==> FilterAll(transforms, b).Some?
    ensures FilterAll(transforms, a).Some? ==>
              var x, y := FilterAll(transforms, a).value, FilterAll(transforms, b).value;
              && x.(from := y.from, agent := y.agent) == y
              && (a.from == b.from ==> x.from == y.from)
              && (a.agent == b.agent ==> x.agent == y.agent)
  {
    if transforms != [] {
      OnlySenderDiffers(transforms[..|transforms| - 1], a, b);
    }
  }

  lemma {:induction false} SingleNeverPanics(transforms: seq<Transform>, wave: Wave)
    requires wave.to.Single?
    ensures FilterAll(transforms, wave).Some? && FilterAll(transforms, wave).value.to.Single?
  {
    if transforms != [] {
      SingleNeverPanics(transforms[..|transforms| - 1], wave);
    }
  }

  /** What any list has done once, it does not change a second time. */
  lemma {:induction false} FilterAllIdempotent(transforms: seq<Transform>, wave: Wave)
    requires FilterAll(transforms, wave).Some?
    ensures FilterAll(transforms, FilterAll(transforms, wave).value) == FilterAll(transforms, wave)
  {
    if transforms != [] {
      var init, last := transforms[..|transforms| - 1], transforms[|transforms| - 1];
      var once := FilterAll(init, wave).value;
      FilterAllIdempotent(init, wave);
      var done := last.Filter(once).value;
      match last
      case FromTransform(_) => OnlySenderDiffers(init, once, done);
      case AgentTransform(_) => OnlySenderDiffers(init, once, done);
      case ToTransform(_) => Readdressed(init, once, done);
      case LayerTransform(_) => LayersOnly(init, once, done);
    }
  }

  /** Sender and agent come out the same however the wave is addressed, as long as it gets through. */
  lemma {:induction false} Readdressed(transforms: seq<Transform>, a: Wave, b: Wave)
    requires a.(to := b.to) == b && b.to.Single? && FilterAll(transforms, a).Some?
    ensures FilterAll(transforms, b).Some?
    ensures FilterAll(transforms, b).value.to.Single?
    ensures FilterAll(transforms, a).value.(to := FilterAll(transforms, b).value.to) == FilterAll(transforms, b).value
  {
    if transforms != [] {
      Readdressed(transforms[..|transforms| - 1], a, b);
    }
  }

  /**
   * Sending a wave through again after it has already been through an earlier state of the (growing) list gives the
   * same as sending the original through now.
   */
  lemma RetryIsHarmless(earlier: seq<Transform>, later: seq<Transform>, wave: Wave)
    requires earlier <= later && FilterAll(earlier, wave).Some?
    ensures FilterAll(later, FilterAll(earlier, wave).value) == FilterAll(later, wave)
  {
    var more := later[|earlier|..];
    assert later == earlier + more;
    FilterAllIdempotent(earlier, wave);
    FilterAllConcat(earlier, more, wave);
    FilterAllConcat(earlier, more, FilterAll(earlier, wave).value);
  }

  /** The transforms that leave sender and agent alone. */
  predicate Readdresses(transform: Transform) {
    transform.ToTransform? || transform.LayerTransform?
  }

  lemma {:induction false} StampsStay(transforms: seq<Transform>, wave: Wave)
    requires forall t | t in transforms :: Readdresses(t)
    requires FilterAll(transforms, wave).Some?
    ensures FilterAll(transforms, wave).value.from == wave.from
    ensures FilterAll(transforms, wave).value.agent == wave.agent
  {
    if transforms != [] {
      assert transforms[|transforms| - 1] in transforms;
      StampsStay(transforms[..|transforms| - 1], wave);
    }
  }

  /** A list that begins with the two stamps and otherwise only readdresses. */
  ghost predicate Stamps(transforms: seq<Transform>, from: Surface, agent: Agent) {
    && |transforms| >= 2
    && transforms[0] == FromTransform(from)
    && transforms[1] == AgentTransform(agent)
    && forall t | t in transforms[2..] :: Readdresses(t)
  }

  lemma StampedByList(transforms: seq<Transform>, from: Surface, agent: Agent, wave: Wave)
    requires Stamps(transforms, from, agent) && FilterAll(transforms, wave).Some?
    ensures FilterAll(transforms, wave).value.from == from && FilterAll(transforms, wave).value.agent == agent
  {
    var stamps, rest := transforms[..2], transforms[2..];
    assert transforms == stamps + rest;
    FilterAllConcat(stamps, rest, wave);
    assert stamps[..1] == [FromTransform(from)] && stamps[..1][..0] == [];
    assert FilterAll(stamps[..1], wave) == Some(wave.(from := from));
    StampsStay(rest, FilterAll(stamps, wave).value);
  }

  // ------------------------------------------------------------------ what a list comes to

  /** What no transform of a list is about stays as it was. */
  lemma {:induction false} Untouched(transforms: seq<Transform>, wave: Wave)
    requires FilterAll(transforms, wave).Some?
    ensures var w := FilterAll(transforms, wave).value;
            && ((forall t | t in transforms :: !t.FromTransform?) ==> w.from == wave.from)
            && ((forall t | t in transforms :: !t.AgentTransform?) ==> w.agent == wave.agent)
            && ((forall t | t in transforms :: !t.ToTransform? && !t.LayerTransform?) ==> w.to == wave.to)
            && ((forall t | t in transforms :: !t.ToTransform?) ==> w.to == wave.to || SameButLayer(w.to, wave.to))
  {
    if transforms != [] {
      var init, last := transforms[..|transforms| - 1], transforms[|transforms| - 1];
      assert transforms == init + [last] && last in transforms;
      Untouched(init, wave);
    }
  }

  lemma AfterOne(before: seq<Transform>, one: Transform, after: seq<Transform>, wave: Wave)
    requires FilterAll(before + [one] + after, wave).Some?
    ensures FilterAll(before, wave).Some? && one.Filter(FilterAll(before, wave).value).Some?
    ensures FilterAll(before + [one] + after, wave) == FilterAll(after, one.Filter(FilterAll(before, wave).value).value)
  {
    FilterAllConcat(before + [one], after, wave);
    assert (before + [one])[..|before|] == before;
  }

  /**
   * The last transform of its kind decides: the last sender, the last agent and the last recipient are those a wave
   * comes out with, and the layer is that of the last layer transform after the last recipient.
   */
  lemma LastOneDecides(before: seq<Transform>, one: Transform, after: seq<Transform>, wave: Wave)
    requires FilterAll(before + [one] + after, wave).Some?
    ensures var w := FilterAll(before + [one] + after, wave).value;
            && (one.FromTransform? && (forall t | t in after :: !t.FromTransform?) ==> w.from == one.from)
            && (one.AgentTransform? && (forall t | t in after :: !t.AgentTransform?) ==> w.agent == one.agent)
            && (one.ToTransform? && (forall t | t in after :: !t.ToTransform?) ==>
                  w.to.Single? && w.to.surface.point == one.to.point && w.to.surface.topic == one.to.topic)
            && (one.ToTransform? && (forall t | t in after :: !t.ToTransform? && !t.LayerTransform?) ==>
                  w.to == Single(one.to))
            && (one.LayerTransform? && (forall t | t in after :: !t.ToTransform? && !t.LayerTransform?) ==>
                  w.to.Single? && w.to.surface.layer == one.layer)
  {
    AfterOne(before, one, after, wave);
    Untouched(after, one.Filter(FilterAll(before, wave).value).value);
  }

  /** A list panics iff the wave has no single recipient and a layer is to be set before anything has given it one. */
  lemma {:induction false} PanicsExactly(transforms: seq<Transform>, wave: Wave)
    ensures FilterAll(transforms, wave).None? <==>
            && !wave.to.Single?
            && exists i :: && 0 <= i < |transforms| && transforms[i].LayerTransform?
                           && forall j | 0 <= j < i :: !transforms[j].ToTransform?
    ensures FilterAll(transforms, wave).Some? && !wave.to.Single? ==>
              (FilterAll(transforms, wave).value.to.Single? <==> exists t :: t in transforms && t.ToTransform?)
  {
    if wave.to.Single? {
      SingleNeverPanics(transforms, wave);
    } else if transforms != [] {
      var init, last := transforms[..|transforms| - 1], transforms[|transforms| - 1];
      assert transforms == init + [last];
      PanicsExactly(init, wave);
      assert forall i | 0 <= i < |init| :: init[i] == transforms[i];
      if last.LayerTransform? && forall t | t in init :: !t.ToTransform? {
        var i := |init|;
        assert forall j | 0 <= j < i :: transforms[j] == init[j] && init[j] in init;
        assert transforms[i].LayerTransform?;
      }
    }
  }
}
