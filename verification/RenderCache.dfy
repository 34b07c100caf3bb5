/**
 The per-host cache of render contexts. A context is the base context of the run plus the global
 environment rendered against it; template rendering itself is not interpreted.
 */
module RenderCache {
  import opened Common

  /** The part of the base context that changes during a run. */
  datatype Base = Base(
    releasePath: string,
    releaseTimestamp: string,
    commitHash: string,
    previousCommitHash: string,
    changelog: string,
    phase: string,
    deployError: string,
    tasks: map<string, string>)

  datatype Context = Context(base: Base, host: string, roles: seq<string>, globalEnv: Option<map<string, string>>)

  /** What does not change: the global envs, the roles of a host, and RenderWith (None if it fails). */
  datatype Settings = Settings(
    env: map<string, string>,
    roles: string -> seq<string>,
    render: (string, Context, bool) -> Option<string>,
    dryRun: bool)

  datatype Rendered = Ok(ctx: Context) | RenderError

  function BaseContext(st: Settings, base: Base, host: string): Context {
    Context(base, host, st.roles(host), None)
  }

  /** Every global env renders. */
  ghost predicate EnvRenders(st: Settings, c: Context) {
    forall k :: k in st.env ==> st.render(st.env[k], c, !st.dryRun).Some?
  }

  ghost function RenderedEnv(st: Settings, c: Context): map<string, string>
    requires EnvRenders(st, c)
  {
    map k | k in st.env :: st.render(st.env[k], c, !st.dryRun).value
  }

  /** What a computation without any cache gives for the host. */
  ghost function Uncached(st: Settings, base: Base, host: string): Rendered {
    var c := BaseContext(st, base, host);
    if !EnvRenders(st, c) then (if st.dryRun then Ok(c) else RenderError)
    else if st.env == map[] then Ok(c)
    else Ok(c.(globalEnv := Some(RenderedEnv(st, c))))
  }

  /** A context is the current base for the host, with the host's roles and, if there are envs, all of them rendered. */
  lemma UncachedMeans(st: Settings, base: Base, host: string)
    ensures var bare := Context(base, host, st.roles(host), None);
            var r := Uncached(st, base, host);
            && (r.RenderError? <==> !st.dryRun && exists k :: k in st.env && st.render(st.env[k], bare, true).None?)
            && (r.Ok? ==> r.ctx.base == base && r.ctx.host == host && r.ctx.roles == st.roles(host))
            && (r.Ok? && r.ctx.globalEnv.Some? ==>
                  && r.ctx.globalEnv.value.Keys == st.env.Keys
                  && forall k :: k in st.env ==>
                       st.render(st.env[k], bare, !st.dryRun) == Some(r.ctx.globalEnv.value[k]))
            && (r.Ok? && r.ctx.globalEnv.None? ==>
                  st.env == map[] || (st.dryRun && exists k :: k in st.env && st.render(st.env[k], bare, false).None?))
  {
  }

  class Renderer {
    const st: Settings
    var base: Base
    var cache: map<string, Context>

    /** Every cached context is what a fresh computation from the current base would give. */
    ghost predicate Coherent()
      reads this
    {
      forall h :: h in cache ==> Uncached(st, base, h) == Ok(cache[h])
    }

    constructor (st: Settings, base: Base)
      ensures Coherent() && this.base == base && this.st == st
    {
      this.st, this.base, cache := st, base, map[];
    }

    method Invalidate()
      modifies this`cache
      ensures cache == map[] && Coherent()
    {
      cache := map[];
    }

    method SetReleaseContext(releasePath: string, timestamp: string)
      modifies this
      ensures Coherent() && base == old(base).(releasePath := releasePath, releaseTimestamp := timestamp)
    {
      base := base.(releasePath := releasePath);
      base := base.(releaseTimestamp := timestamp);
      Invalidate();
    }

    method SetCommitHash(hash: string)
      modifies this
      ensures Coherent() && base == old(base).(commitHash := hash)
    {
      base := base.(commitHash := hash);
      Invalidate();
    }

    method SetPreviousCommitHash(hash: string)
      modifies this
      ensures Coherent() && base == old(base).(previousCommitHash := hash)
    {
      base := base.(previousCommitHash := hash);
      Invalidate();
    }

    method SetChangelog(log: string)
      modifies this
      ensures Coherent() && base == old(base).(changelog := log)
    {
      base := base.(changelog := log);
      Invalidate();
    }

    method SetError(msg: string)
      modifies this
      ensures Coherent() && base == old(base).(deployError := msg)
    {
      base := base.(deployError := msg);
      Invalidate();
    }

    method SetTaskState(name: string, value: string)
      modifies this
      ensures Coherent() && base == old(base).(tasks := old(base).tasks[name := value])
    {
      base := base.(tasks := base.tasks[name := value]);
      Invalidate();
    }

    /** Entering and leaving a phase; the caller restores what EnterPhase returned. */
    method EnterPhase(phase: string) returns (prev: string)
      modifies this
      ensures Coherent() && base == old(base).(phase := phase) && prev == old(base).phase
    {
      prev := base.phase;
      base := base.(phase := phase);
      Invalidate();
    }

    /** None if some value does not render. */
    method GlobalEnv(host: string) returns (failed: bool, env: Option<map<string, string>>)
      ensures var c := BaseContext(st, base, host);
              && (failed <==> !EnvRenders(st, c))
              && (!failed && st.env == map[] ==> env == None)
              && (!failed && st.env != map[] ==>
                    env == Some(RenderedEnv(st, c)))
    {
      var c := BaseContext(st, base, host);
      if |st.env| == 0 {
        assert st.env == map[];
        return false, None;
      }
      var out: map<string, string>, todo := map[], st.env.Keys;
      while todo != {}
        invariant todo <= st.env.Keys && out.Keys == st.env.Keys - todo
        invariant forall k :: k in out ==> st.render(st.env[k], c, !st.dryRun) == Some(out[k])
        decreases todo
      {
        var k :| k in todo;
        var v := st.render(st.env[k], c, !st.dryRun);
        if v.None? {
          return true, None;
        }
        out, todo := out[k := v.value], todo - {k};
      }
      assert out == RenderedEnv(st, c);
      return false, Some(out);
    }

    /** With or without a cached entry, the caller gets what a fresh computation would give. */
    method RenderContext(host: string) returns (r: Rendered)
      requires Coherent()
      modifies this`cache
      ensures Coherent() && r == Uncached(st, base, host)
      ensures r.Ok? ==> r.ctx.base == base && r.ctx.host == host && r.ctx.roles == st.roles(host)
    {
      if host in cache {
        return Ok(cache[host]);
      }
      var c := BaseContext(st, base, host);
      var failed, env := GlobalEnv(host);
      if failed {
        if !st.dryRun {
          return RenderError;
        }
      } else {
        c := c.(globalEnv := env);
      }
      cache := cache[host := c];
      return Ok(c);
    }
  }

  // ---- Renders that race ----

  /** A render between its lookup, which missed, and its store. */
  datatype Pending = Looked(host: string) | Computed(host: string, result: Rendered)

  datatype Shared = Shared(base: Base, cache: map<string, Context>, pending: map<nat, Pending>)

  datatype Move =
    | Hit(host: string, result: Rendered)
    | Miss(id: nat, host: string)
    | Compute(id: nat)
    | Store(id: nat, result: Rendered)
    | ChangeBase(base: Base)

  /** Lookup and store are atomic, everything between them is not; the base changes only between fanouts. */
  ghost predicate Step(st: Settings, s: Shared, t: Shared, m: Move) {
    match m
    case Hit(host, result) =>
      host in s.cache && result == Ok(s.cache[host]) && t == s
    case Miss(id, host) =>
      host !in s.cache && id !in s.pending && t == s.(pending := s.pending[id := Looked(host)])
    case Compute(id) =>
      && id in s.pending && s.pending[id].Looked?
      && t == s.(pending := s.pending[id := Computed(s.pending[id].host, Uncached(st, s.base, s.pending[id].host))])
    case Store(id, result) =>
      && id in s.pending && s.pending[id].Computed? && result == s.pending[id].result
      && t == s.(pending := s.pending - {id},
                 cache := if result.Ok? then s.cache[s.pending[id].host := result.ctx] else s.cache)
    case ChangeBase(base) =>
      s.pending == map[] && t == s.(base := base, cache := map[])
  }

  ghost predicate IsRace(st: Settings, states: seq<Shared>, moves: seq<Move>) {
    && |states| == |moves| + 1
    && states[0].cache == map[] && states[0].pending == map[]
    && forall k :: 0 <= k < |moves| ==> Step(st, states[k], states[k + 1], moves[k])
  }

  ghost predicate Consistent(st: Settings, s: Shared) {
    && (forall h :: h in s.cache ==> Uncached(st, s.base, h) == Ok(s.cache[h]))
    && (forall id :: id in s.pending && s.pending[id].Computed? ==>
          s.pending[id].result == Uncached(st, s.base, s.pending[id].host))
  }

  lemma {:induction false} RaceIsConsistent(st: Settings, states: seq<Shared>, moves: seq<Move>, k: nat)
    requires IsRace(st, states, moves) && k < |states|
    ensures Consistent(st, states[k])
  {
    if k > 0 {
      RaceIsConsistent(st, states, moves, k - 1);
      assert Step(st, states[k - 1], states[k - 1 + 1], moves[k - 1]);
    }
  }

  /** However renders interleave, each returns what a fresh computation from the base of that moment would. */
  lemma RacingRendersAreFresh(st: Settings, states: seq<Shared>, moves: seq<Move>, k: nat)
    requires IsRace(st, states, moves) && k < |moves|
    ensures moves[k].Hit? ==> moves[k].result == Uncached(st, states[k].base, moves[k].host)
    ensures moves[k].Store? ==>
              && moves[k].id in states[k].pending
              && moves[k].result == Uncached(st, states[k].base, states[k].pending[moves[k].id].host)
  {
    RaceIsConsistent(st, states, moves, k);
    assert Step(st, states[k], states[k + 1], moves[k]);
  }
}
