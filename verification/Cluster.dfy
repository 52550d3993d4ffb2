/** The cluster seen by the deploy code, as an adversary: every answer of every
    call is arbitrary, and a ghost trace records each call with its answer. */
module Cluster {
  import opened Wrappers
  import opened Kubernetes

  /** Desired intent: what a generated document asks the server to hold. */
  datatype Manifest = Manifest(gvk: GVK, namespace: string, name: string, spec: string)

  /** Answer of a GET. */
  datatype Read = Missing | Found(generation: int, resourceVersion: string)

  /** Answer of a server-side apply. */
  datatype Receipt = Applied(generation: int, resourceVersion: string) | NoMatch | Rejected

  /** Answer of the per-kind validator; `Transient` is a transport error. */
  datatype Verdict = Transient | Success | Error(retryable: bool) | NotDeployed | InProgress

  /** Answer of a live target-scope inspection. */
  datatype ScopeRead = InScope | RetryableRead | OutOfScope

  /** Which channel won a select. */
  datatype Winner = Tick | Timer | Cancelled

  datatype Gate = PoolCIDRs | BundleScopes | OcpOperators | SecondaryRemovals | Preflight | SpectrumXApi

  datatype Stage = HelmInstall | StrayRemediation | OcpConfiguration

  datatype Event =
    | CtxErr(done: bool)
    | Get(target: Manifest, read: Read)
    | DesiredScope(target: Manifest, ok: bool)
    | LiveScope(target: Manifest, answer: ScopeRead)
    | Ownership(policy: Option<Manifest>, ok: bool)
    | Validate(target: Manifest, verdict: Verdict, at: nat)
    | Apply(sent: Manifest, dryRun: bool, receipt: Receipt)
    | Wait(winner: Winner, at: nat)
    | Checked(gate: Gate, ok: bool)
    | Staged(stage: Stage, dryRun: bool, ok: bool)

  /** Kinds whose selector must match the intended source workers. */
  predicate HasTargetScope(m: Manifest) {
    || (m.gvk.group == "sriovnetwork.openshift.io" && m.gvk.kind == "SriovNetworkNodePolicy")
    || (m.gvk.group == "nv-ipam.nvidia.com" && m.gvk.kind == "IPPool")
  }

  predicate IsNicClusterPolicy(m: Manifest) {
    m.gvk.group == "mellanox.com" && m.gvk.kind == "NicClusterPolicy"
  }

  /** Kinds whose status lives on the applied object itself. */
  predicate NeedsObservationGate(gvk: GVK) {
    || (gvk.group == "mellanox.com" && gvk.version == "v1alpha1"
        && gvk.kind in {"NicClusterPolicy", "NicNodePolicy", "HostDeviceNetwork", "IPoIBNetwork", "MacvlanNetwork"})
    || gvk == GVK("spectrumx.nvidia.com", "v1alpha2", "SpectrumXRailPoolConfig")
    || (gvk.group == "configuration.net.nvidia.com" && gvk.version == "v1alpha1"
        && gvk.kind in {"NicConfigurationTemplate", "NicFirmwareTemplate"})
  }

  /** Five minutes for NicInterfaceNameTemplate, no local window otherwise. */
  function RetryableErrorWindow(gvk: GVK): nat {
    if gvk == GVK("configuration.net.nvidia.com", "v1alpha1", "NicInterfaceNameTemplate") then 300 else 0
  }

  /** The resourceVersion to wait past after an apply, or "" for no gate. */
  function GateAfter(gvk: GVK, before: int, receipt: Receipt): string {
    if receipt.Applied? && receipt.generation > before && NeedsObservationGate(gvk)
    then receipt.resourceVersion
    else ""
  }

  /** An object in memory. Apply decodes the server's response into it. */
  class Unstructured {
    var content: Manifest
    var generation: int
    var resourceVersion: string

    constructor (m: Manifest)
      ensures content == m
    {
      content, generation, resourceVersion := m, 0, "";
    }

    method DeepCopy() returns (copy: Unstructured)
      ensures fresh(copy) && copy.content == content
    {
      copy := new Unstructured(content);
    }
  }

  /** `patience` is the arbitrary number of ticks after which the deploy context
      ends; the code never reads it, so each finite prefix of an endless run is
      the prefix of some modelled run. */
  class Client {
    ghost var trace: seq<Event>
    var clock: nat
    var patience: nat

    constructor ()
      ensures trace == []
    {
      trace := [];
      clock := *;
      patience := *;
    }

    method ContextEnded() returns (done: bool)
      modifies `trace
      ensures trace == old(trace) + [CtxErr(done)]
    {
      done := *;
      trace := trace + [CtxErr(done)];
    }

    method Read(obj: Unstructured) returns (read: Read)
      modifies `trace
      ensures trace == old(trace) + [Get(obj.content, read)]
    {
      read := *;
      trace := trace + [Get(obj.content, read)];
    }

    /** inspectDesiredTargetScope: kinds without a scope are passed unread. */
    method InspectDesiredScope(obj: Unstructured) returns (ok: bool)
      modifies `trace
      ensures !HasTargetScope(obj.content) ==> ok && trace == old(trace)
      ensures HasTargetScope(obj.content) ==> trace == old(trace) + [DesiredScope(obj.content, ok)]
    {
      ok := true;
      if HasTargetScope(obj.content) {
        ok := *;
        trace := trace + [DesiredScope(obj.content, ok)];
      }
    }

    method InspectLiveScope(obj: Unstructured) returns (answer: ScopeRead)
      modifies `trace
      ensures !HasTargetScope(obj.content) ==> answer == InScope && trace == old(trace)
      ensures HasTargetScope(obj.content) ==> trace == old(trace) + [LiveScope(obj.content, answer)]
    {
      answer := InScope;
      if HasTargetScope(obj.content) {
        answer := *;
        trace := trace + [LiveScope(obj.content, answer)];
      }
    }

    method CheckOwnership(obj: Unstructured?) returns (ok: bool)
      modifies `trace
      ensures trace == old(trace) + [Ownership(if obj == null then None else Some(obj.content), ok)]
    {
      ok := *;
      trace := trace + [Ownership(if obj == null then None else Some(obj.content), ok)];
    }

    method ValidateState(obj: Unstructured) returns (verdict: Verdict)
      modifies `trace, `clock
      ensures clock >= old(clock)
      ensures trace == old(trace) + [Validate(obj.content, verdict, clock)]
    {
      var elapsed :| elapsed >= 0;
      clock := clock + elapsed;
      verdict := *;
      trace := trace + [Validate(obj.content, verdict, clock)];
    }

    method ServerSideApply(obj: Unstructured, dryRun: bool) returns (receipt: Receipt)
      modifies `trace, obj
      ensures trace == old(trace) + [Apply(old(obj.content), dryRun, receipt)]
      ensures receipt.Applied? ==> obj.generation == receipt.generation && obj.resourceVersion == receipt.resourceVersion
      ensures !receipt.Applied? ==> obj.content == old(obj.content)
    {
      receipt := *;
      trace := trace + [Apply(obj.content, dryRun, receipt)];
      if receipt.Applied? {
        obj.content := *;
        obj.generation, obj.resourceVersion := receipt.generation, receipt.resourceVersion;
      }
    }

    /** select over the context, an armed timer and the ticker. A timer channel
        that is nil never fires, an armed one only once its deadline has passed. */
    method Select(deadline: Option<nat>) returns (winner: Winner)
      modifies this
      ensures clock >= old(clock)
      ensures trace == old(trace) + [Wait(winner, clock)]
      ensures winner.Timer? ==> deadline.Some? && clock >= deadline.value
      ensures winner.Tick? ==> patience < old(patience)
      ensures patience <= old(patience)
    {
      var elapsed :| elapsed >= 0;
      clock := clock + elapsed;
      winner := *;
      if winner.Tick? && patience > 0 {
        patience := patience - 1;
      } else if !(winner.Timer? && deadline.Some? && clock >= deadline.value) {
        winner := Cancelled;
      }
      trace := trace + [Wait(winner, clock)];
    }

    method Check(gate: Gate) returns (ok: bool)
      modifies `trace
      ensures trace == old(trace) + [Checked(gate, ok)]
    {
      ok := *;
      trace := trace + [Checked(gate, ok)];
    }

    method Stage(stage: Stage, dryRun: bool) returns (ok: bool)
      modifies `trace
      ensures trace == old(trace) + [Staged(stage, dryRun, ok)]
    {
      ok := *;
      trace := trace + [Staged(stage, dryRun, ok)];
    }
  }
}
