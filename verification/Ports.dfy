/** The search for a free run of listener ports around the one a hotel asks for. */
module Ports {
  import opened Wrappers

  const U16_MAX: nat := 65535

  type u16 = n: nat | n <= 65535

  function SaturatingAdd(a: u16, b: u16): u16 {
    if a + b > U16_MAX then U16_MAX else a + b
  }

  function SaturatingSub(a: u16, b: u16): u16 {
    if a < b then 0 else a - b
  }

  function Distance(a: u16, b: u16): nat {
    if a < b then b - a else a - b
  }

  /** Strictly preferred around `desired`: nearer, or equally near and higher. */
  predicate Prefers(desired: u16, p: u16, q: u16) {
    Distance(p, desired) < Distance(q, desired) || (Distance(p, desired) == Distance(q, desired) && p > q)
  }

  /** The accepted port every other accepted port loses to. */
  ghost predicate IsNearest(desired: u16, accepts: u16 -> bool, p: u16) {
    accepts(p) && forall q: u16 :: accepts(q) && q != p ==> Prefers(desired, p, q)
  }

  /** Nothing nearer is accepted, nor, for a lower port, the higher one as far away. */
  lemma FoundIsNearest(desired: u16, accepts: u16 -> bool, p: u16)
    requires accepts(p)
    requires forall q: u16 :: Distance(q, desired) < Distance(p, desired) ==> !accepts(q)
    requires p < desired ==>
      forall q: u16 :: q > desired && Distance(q, desired) == Distance(p, desired) ==> !accepts(q)
    ensures IsNearest(desired, accepts, p)
  {
    forall q: u16 | accepts(q) && q != p ensures Prefers(desired, p, q) {
      assert Distance(q, desired) >= Distance(p, desired);
    }
  }

  method NearestAvailableBasePort(desired: u16, accepts: u16 -> bool) returns (found: Option<u16>)
    ensures found.Some? ==> IsNearest(desired, accepts, found.value)
    ensures found.None? <==> forall q: u16 :: !accepts(q)
  {
    if accepts(desired) {
      return Some(desired);
    }
    var below := SaturatingSub(U16_MAX, desired);
    var maxOffset := if below < desired then desired else below;
    var offset: nat := 1;
    while offset <= maxOffset
      invariant 1 <= offset <= maxOffset + 1
      invariant forall q: u16 :: Distance(q, desired) < offset ==> !accepts(q)
    {
      var up := SaturatingAdd(desired, offset);
      if up >= desired && accepts(up) {
        FoundIsNearest(desired, accepts, up);
        return Some(up);
      }
      var down := SaturatingSub(desired, offset);
      if down < desired && accepts(down) {
        FoundIsNearest(desired, accepts, down);
        return Some(down);
      }
      offset := offset + 1;
    }
    return None;
  }

  datatype Probe = Probe(udp: u16 -> bool, tcp: u16 -> bool)

  datatype Triple = Triple(mesh: u16, blob: u16, execution: u16)

  predicate PortClusterAvailable(probe: Probe, ports: Triple) {
    probe.udp(ports.mesh) && probe.tcp(ports.blob) && probe.tcp(ports.execution)
  }

  predicate LocalServicePortsAvailable(probe: Probe, ports: Triple) {
    probe.tcp(ports.blob) && probe.tcp(ports.execution)
  }

  predicate PortsAvailable(probe: Probe, ports: Triple, meshEnabled: bool) {
    if meshEnabled then PortClusterAvailable(probe, ports) else LocalServicePortsAvailable(probe, ports)
  }

  function CheckedAdd(a: u16, b: u16): Option<u16> {
    if a + b > U16_MAX then None else Some(a + b)
  }

  /** The closure the search is run with. */
  function AcceptsBase(probe: Probe, meshEnabled: bool): u16 -> bool {
    (base: u16) =>
      var blob, execution := CheckedAdd(base, 1), CheckedAdd(base, 2);
      blob.Some? && execution.Some? && PortsAvailable(probe, Triple(base, blob.value, execution.value), meshEnabled)
  }

  /** What a hotel needs: its TCP ports, and with the mesh its UDP port as well. */
  ghost predicate Free(probe: Probe, ports: Triple, meshEnabled: bool) {
    && (meshEnabled ==> probe.udp(ports.mesh))
    && (forall p: u16 :: p in {ports.blob, ports.execution} ==> probe.tcp(p))
  }

  /** A base with two successors among the ports, all of them free. */
  ghost predicate RunIsFree(probe: Probe, base: u16, meshEnabled: bool) {
    base <= 65533 && Free(probe, Triple(base, base + 1, base + 2), meshEnabled)
  }

  ghost predicate IsNearestRun(desired: u16, probe: Probe, meshEnabled: bool, base: u16) {
    RunIsFree(probe, base, meshEnabled)
    && forall q: u16 :: RunIsFree(probe, q, meshEnabled) && q != base ==> Prefers(desired, base, q)
  }

  lemma AcceptedIsFree(probe: Probe, base: u16, meshEnabled: bool)
    ensures AcceptsBase(probe, meshEnabled)(base) <==> RunIsFree(probe, base, meshEnabled)
  {
  }

  /**
   The hotel's own ports when they are free; otherwise the nearest free run of three, which never
   overflows; otherwise an error, and only when no run of three is free.
   */
  method ResolveRuntimePorts(wanted: Triple, meshEnabled: bool, probe: Probe) returns (ports: Option<Triple>)
    ensures ports.Some? ==> Free(probe, ports.value, meshEnabled)
    ensures Free(probe, wanted, meshEnabled) ==> ports == Some(wanted)
    ensures ports.Some? && !Free(probe, wanted, meshEnabled) ==>
              && ports.value.blob == ports.value.mesh + 1 && ports.value.execution == ports.value.mesh + 2
              && IsNearestRun(wanted.mesh, probe, meshEnabled, ports.value.mesh)
    ensures ports.None? <==>
              !Free(probe, wanted, meshEnabled) && forall base: u16 :: !RunIsFree(probe, base, meshEnabled)
  {
    if PortsAvailable(probe, wanted, meshEnabled) {
      return Some(wanted);
    }
    var base := NearestAvailableBasePort(wanted.mesh, AcceptsBase(probe, meshEnabled));
    forall q: u16 ensures AcceptsBase(probe, meshEnabled)(q) <==> RunIsFree(probe, q, meshEnabled) {
      AcceptedIsFree(probe, q, meshEnabled);
    }
    if base.None? {
      return None;
    }
    return Some(Triple(base.value, base.value + 1, base.value + 2));
  }
}
