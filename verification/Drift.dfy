/** GitOps drift entries: the desired spec stored per instance, compared with live specs by hash, and
    deleted once they agree. */
module Drift {
  import opened Text
  import opened Wrappers
  import opened Canonical

  /** The SHA-256 digest of a text, taken to be collision-free. */
  datatype Digest = Sha256(text: string)

  ghost function SpecHash(spec: Json): (h: Option<Digest>) {
    if Printable(spec) then Some(Sha256(Print(spec))) else None
  }

  method HashSpec(spec: Json) returns (h: Option<Digest>)
    ensures h == SpecHash(spec)
  {
    var text := CanonicalJson(spec);
    h := if text.Some? then Some(Sha256(text.value)) else None;
  }

  /** Equal hashes mean equal specs: key order never matters, and no two specs are confused. */
  lemma {:induction false} HashDecidesSpec(a: Json, b: Json)
    requires Printable(a) && Printable(b)
    ensures SpecHash(a) == SpecHash(b) <==> a == b
  {
    CanonicalTextIsUnambiguous(a, b);
  }

  function DriftKey(organization: string, namespace: string, kind: string, name: string): (key: string) {
    "drift:" + organization + "/" + (namespace + "/" + (kind + "/" + name))
  }

  /** Instances of one organization share a key only if they are the same instance (Kubernetes names
      hold no slash). */
  lemma {:induction false} DriftKeyInjective(organization: string, ns: string, kind: string, name: string, ns': string, kind': string, name': string)
    requires Free(ns, '/') && Free(kind, '/') && Free(ns', '/') && Free(kind', '/')
    requires DriftKey(organization, ns, kind, name) == DriftKey(organization, ns', kind', name')
    ensures ns == ns' && kind == kind' && name == name'
  {
    var head := "drift:" + organization + "/";
    var a, b := ns + "/" + (kind + "/" + name), ns' + "/" + (kind' + "/" + name');
    assert a == (head + a)[|head|..] == (head + b)[|head|..] == b;
    FirstCutUnique(ns, kind + "/" + name, '/', ns', kind' + "/" + name');
    FirstCutUnique(kind, name, '/', kind', name');
  }

  datatype Entry = Entry(hash: Digest, desired: Json, pushedAt: int)

  datatype Verdict = Steady | Drifted(desired: Json, since: int)

  datatype Instance = Instance(namespace: string, kind: string, name: string, live: Json)

  /** What a drift check says about one instance, given the stored entries. */
  ghost function Check(entries: map<string, Entry>, key: string, live: Json): (v: Verdict) {
    if key in entries && SpecHash(live).Some? && SpecHash(live).value != entries[key].hash
    then Drifted(entries[key].desired, entries[key].pushedAt)
    else Steady
  }

  /** Entries as StoreDrift makes them. */
  ghost predicate WellHashed(entries: map<string, Entry>) {
    forall k | k in entries :: SpecHash(entries[k].desired) == Some(entries[k].hash)
  }

  /** A check reports drift exactly when there is an entry whose desired spec is not the live spec. */
  lemma {:induction false} CheckComparesSpecs(entries: map<string, Entry>, key: string, live: Json)
    requires WellHashed(entries) && Printable(live)
    ensures Check(entries, key, live).Drifted? <==> key in entries && entries[key].desired != live
    ensures key in entries && entries[key].desired != live ==> Check(entries, key, live).desired == entries[key].desired
  {
    if key in entries {
      HashDecidesSpec(live, entries[key].desired);
    }
  }

  class Service {
    const organization: string
    const connected: bool
    var entries: map<string, Entry>

    constructor (organization: string, connected: bool)
      ensures this.organization == (if organization == "" then "default" else organization)
      ensures this.connected == connected && entries == map[]
    {
      this.organization := if organization == "" then "default" else organization;
      this.connected := connected;
      entries := map[];
    }

    function Key(i: Instance): string {
      DriftKey(organization, i.namespace, i.kind, i.name)
    }

    /** Fails exactly on a spec that cannot be hashed; without a client it does nothing. */
    method StoreDrift(i: Instance, desired: Json, now: int) returns (ok: bool)
      modifies this
      ensures ok <==> !connected || Printable(desired)
      ensures entries == if connected && ok then old(entries)[Key(i) := Entry(SpecHash(desired).value, desired, now)] else old(entries)
      ensures old(WellHashed(entries)) ==> WellHashed(entries)
    {
      if !connected {
        return true;
      }
      var hash := HashSpec(desired);
      if hash == None {
        return false;
      }
      entries := entries[Key(i) := Entry(hash.value, desired, now)];
      ok := true;
    }

    method CheckDrift(i: Instance) returns (v: Verdict)
      ensures v == if connected then Check(entries, Key(i), i.live) else Steady
    {
      if !connected || Key(i) !in entries {
        return Steady;
      }
      var entry := entries[Key(i)];
      var hash := HashSpec(i.live);
      if hash == None || hash.value == entry.hash {
        return Steady;
      }
      return Drifted(entry.desired, entry.pushedAt);
    }

    /** One multi-get, then the instances one by one: the same verdicts as checking each on its own. */
    method BatchCheckDrift(inputs: seq<Instance>) returns (results: seq<Verdict>)
      ensures |results| == |inputs|
      ensures forall k | 0 <= k < |inputs| ::
                results[k] == if connected then Check(entries, Key(inputs[k]), inputs[k].live) else Steady
    {
      results := seq(|inputs|, _ => Steady);
      if !connected || |inputs| == 0 {
        return;
      }
      var vals := seq(|inputs|, k requires 0 <= k < |inputs| reads this =>
        if Key(inputs[k]) in entries then Some(entries[Key(inputs[k])]) else None);
      for k := 0 to |vals|
        invariant |results| == |inputs|
        invariant forall j | 0 <= j < |inputs| ::
                    results[j] == if j < k then Check(entries, Key(inputs[j]), inputs[j].live) else Steady
      {
        if vals[k] == None {
          continue;
        }
        var entry := vals[k].value;
        var hash := HashSpec(inputs[k].live);
        if hash == None {
          continue;
        }
        if hash.value != entry.hash {
          results := results[k := Drifted(entry.desired, entry.pushedAt)];
        }
      }
    }

    method ClearDrift(i: Instance)
      modifies this
      ensures entries == if connected then old(entries) - {Key(i)} else old(entries)
    {
      if connected {
        entries := entries - {Key(i)};
      }
    }

    /** The compare and the delete are one atomic script in Redis. */
    method CheckAndClearIfReconciled(i: Instance) returns (cleared: bool)
      modifies this
      ensures cleared <==> connected && Key(i) in old(entries) && SpecHash(i.live) == Some(old(entries)[Key(i)].hash)
      ensures entries == if cleared then old(entries) - {Key(i)} else old(entries)
      ensures old(WellHashed(entries)) && cleared ==> old(entries)[Key(i)].desired == i.live
    {
      if !connected {
        return false;
      }
      var hash := HashSpec(i.live);
      if hash == None {
        return false;
      }
      cleared := Key(i) in entries && entries[Key(i)].hash == hash.value;
      if cleared {
        if WellHashed(entries) {
          HashDecidesSpec(i.live, entries[Key(i)].desired);
        }
        entries := entries - {Key(i)};
      }
    }
  }

  // ---- stores and checks interleaved ----

  /** A check hashes the live spec it was given first, and only later runs the script. */
  datatype Event =
    | Push(key: string, desired: Json, now: int)
    | Begin(check: nat, key: string, live: Json)
    | Finish(check: nat)
    | Clear(key: string)
    | Expire(key: string)

  datatype Machine = Machine(entries: map<string, Entry>, checks: map<nat, (string, Json)>)

  ghost function Next(m: Machine, e: Event): (n: Machine) {
    match e
    case Push(key, desired, now) =>
      if Printable(desired) then m.(entries := m.entries[key := Entry(SpecHash(desired).value, desired, now)]) else m
    case Begin(check, key, live) =>
      if Printable(live) then m.(checks := m.checks[check := (key, live)]) else m
    case Finish(check) =>
      if check !in m.checks then m
      else
        var (key, live) := m.checks[check];
        var hit := key in m.entries && SpecHash(live) == Some(m.entries[key].hash);
        Machine(if hit then m.entries - {key} else m.entries, m.checks - {check})
    case Clear(key) => m.(entries := m.entries - {key})
    case Expire(key) => m.(entries := m.entries - {key})
  }

  ghost function Run(events: seq<Event>): (m: Machine)
    decreases |events|
  {
    if |events| == 0 then Machine(map[], map[]) else Next(Run(events[..|events| - 1]), events[|events| - 1])
  }

  /** The spec pushed last for a key. */
  function LastPushed(events: seq<Event>, key: string): (desired: Option<Json>)
    decreases |events|
  {
    if |events| == 0 then None
    else
      var e := events[|events| - 1];
      if e.Push? && e.key == key && Printable(e.desired) then Some(e.desired) else LastPushed(events[..|events| - 1], key)
  }

  ghost predicate Began(events: seq<Event>, key: string, live: Json) {
    exists check :: Begin(check, key, live) in events
  }

  /** A finishing check deletes an entry exactly when the live spec it began with is the desired spec
      stored at that moment. */
  lemma {:induction false} DeletedOnlyIfReconciled(m: Machine, check: nat)
    requires WellHashed(m.entries) && check in m.checks && Printable(m.checks[check].1)
    ensures var (key, live) := m.checks[check];
            var n := Next(m, Finish(check));
            && (key in m.entries && key !in n.entries <==> key in m.entries && m.entries[key].desired == live)
            && forall k | k in m.entries && k != key :: k in n.entries && n.entries[k] == m.entries[k]
  {
    var (key, live) := m.checks[check];
    if key in m.entries {
      HashDecidesSpec(live, m.entries[key].desired);
    }
  }

  /** Every check in flight began with the live spec it holds. */
  ghost predicate ChecksBegan(events: seq<Event>) {
    var m := Run(events);
    WellHashed(m.entries) && forall c | c in m.checks :: Printable(m.checks[c].1) && Began(events, m.checks[c].0, m.checks[c].1)
  }

  /** The stored spec is the one pushed last; if none is stored, a check began with that one. */
  ghost predicate KeyFaithful(events: seq<Event>, key: string) {
    var entries, last := Run(events).entries, LastPushed(events, key);
    && (key in entries ==> last == Some(entries[key].desired))
    && (key !in entries && last.Some? ==> Began(events, key, last.value))
  }

  lemma {:induction false} BeganLater(events: seq<Event>, e: Event, key: string, live: Json)
    requires Began(events, key, live)
    ensures Began(events + [e], key, live)
  {
    var check :| Begin(check, key, live) in events;
    assert Begin(check, key, live) in events + [e];
  }

  lemma {:induction false} RunLast(events: seq<Event>, e: Event, key: string)
    ensures Run(events + [e]) == Next(Run(events), e)
    ensures LastPushed(events + [e], key)
            == if e.Push? && e.key == key && Printable(e.desired) then Some(e.desired) else LastPushed(events, key)
  {
    assert (events + [e])[..|events + [e]| - 1] == events;
  }

  lemma {:induction false} StepChecksBegan(events: seq<Event>, e: Event)
    requires ChecksBegan(events)
    ensures ChecksBegan(events + [e])
  {
    var m, n := Run(events), Run(events + [e]);
    RunLast(events, e, "");
    forall c | c in n.checks
      ensures Printable(n.checks[c].1) && Began(events + [e], n.checks[c].0, n.checks[c].1)
    {
      if c in m.checks && n.checks[c] == m.checks[c] {
        BeganLater(events, e, m.checks[c].0, m.checks[c].1);
      } else {
        assert e == Begin(c, n.checks[c].0, n.checks[c].1) && e in events + [e];
      }
    }
  }

  lemma {:induction false} StepKeyFaithful(events: seq<Event>, e: Event, key: string)
    requires ChecksBegan(events) && KeyFaithful(events, key) && e != Clear(key) && e != Expire(key)
    ensures KeyFaithful(events + [e], key)
  {
    var m, last := Run(events), LastPushed(events, key);
    RunLast(events, e, key);
    if key !in m.entries && last.Some? {
      BeganLater(events, e, key, last.value);
    }
    if e.Finish? && e.check in m.checks {
      DeletedOnlyIfReconciled(m, e.check);
      BeganLater(events, e, m.checks[e.check].0, m.checks[e.check].1);
    }
  }

  lemma {:induction false} RunIsFaithful(events: seq<Event>, key: string)
    requires Clear(key) !in events && Expire(key) !in events
    ensures ChecksBegan(events) && KeyFaithful(events, key)
    decreases |events|
  {
    if |events| > 0 {
      var n := |events| - 1;
      assert events == events[..n] + [events[n]];
      RunIsFaithful(events[..n], key);
      StepChecksBegan(events[..n], events[n]);
      StepKeyFaithful(events[..n], events[n], key);
    }
  }

  /** A newer desired spec is never lost to an older live one: in every interleaving, the spec pushed last
      for a key is still stored unless some check began with exactly that spec as its live spec (or the
      entry was cleared or expired). */
  lemma {:induction false} NewestDesiredSurvives(events: seq<Event>, key: string, desired: Json)
    requires Clear(key) !in events && Expire(key) !in events
    requires LastPushed(events, key) == Some(desired) && !Began(events, key, desired)
    ensures key in Run(events).entries && Run(events).entries[key].desired == desired
  {
    RunIsFaithful(events, key);
  }
}
