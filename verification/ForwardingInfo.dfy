// What becomes of a directive once both its probes have returned.
module ForwardingInfo {
  import opened Wrappers
  import opened GoNumbers
  import opened Directives
  import opened CaracalRecords

  /** The result and error of Prober.Probe. NoResult is the pair (nil, nil), which no prober should return. */
  datatype ProbeReturn = Completed(result: ProbeResult) | NoResult | DuplicatePD | ProbeError

  datatype Info = Info(probeTTL: uint8, replyAddress: Option<IP>, sentTimestamp: int, receivedTimestamp: int)

  datatype ForwardingInfoElement = ForwardingInfoElement(
    agentID: string, directiveID: nat, protocol: Protocol, sourceAddress: Option<IP>, destinationAddress: IP,
    nearInfo: Option<Info>, farInfo: Option<Info>)

  datatype DropReason =
    | DuplicateProbe | FailedProbe | MissingResult   // processPD gives up on the directive
    | ReaderCancelled | OfferCancelled | WriteFailed // the pipeline stops while it is held

  datatype Conclusion = Forward(fie: ForwardingInfoElement) | Drop(reason: DropReason)

  function ProbeResultToInfo(result: ProbeResult, ttl: uint8): Option<Info> {
    if result.timedOut then None
    else Some(Info(ttl, result.replyAddress, result.sentTime, result.receivedTime))
  }

  /** The address a probe offers: a timed-out one has none. */
  function Offered(r: ProbeResult): Option<IP> {
    if r.timedOut then None else r.sourceAddress
  }

  /** The near probe's source address, else the far probe's. */
  function SourceAddress(near: ProbeResult, far: ProbeResult): (a: Option<IP>)
    ensures Offered(near).Some? ==> a == Offered(near)
    ensures a.None? <==> Offered(near).None? && Offered(far).None?
    ensures a in {Offered(near), Offered(far)}
  {
    var fromNear := if near.timedOut then None else near.sourceAddress;
    if fromNear.None? && !far.timedOut then far.sourceAddress else fromNear
  }

  function BuildFIE(agentID: string, pd: Directive, near: ProbeResult, far: ProbeResult): (fie: ForwardingInfoElement)
    ensures fie.nearInfo.None? <==> near.timedOut
    ensures fie.farInfo.None? <==> far.timedOut
    ensures fie.sourceAddress == if Offered(near).Some? then Offered(near) else Offered(far)
    ensures fie.agentID == agentID && fie.directiveID == pd.id
    ensures fie.protocol == pd.protocol && fie.destinationAddress == pd.destination
  {
    ForwardingInfoElement(agentID, pd.id, pd.protocol, SourceAddress(near, far), pd.destination,
      ProbeResultToInfo(near, pd.nearTTL), ProbeResultToInfo(far, FarTTL(pd)))
  }

  /** processPD after both probes have returned: the near return is looked at first. */
  function ProcessPD(agentID: string, pd: Directive, near: ProbeReturn, far: ProbeReturn): (c: Conclusion)
    ensures c.Forward? <==> near.Completed? && far.Completed?
    ensures c == Drop(DuplicateProbe) <==> near.DuplicatePD? || (near.Completed? && far.DuplicatePD?)
    ensures c == Drop(FailedProbe) <==> near.ProbeError? || (near.Completed? && far.ProbeError?)
    ensures c == Drop(MissingResult) <==> near.NoResult? || (near.Completed? && far.NoResult?)
  {
    match (near, far)
    case (DuplicatePD, _) => Drop(DuplicateProbe)
    case (ProbeError, _) => Drop(FailedProbe)
    case (NoResult, _) => Drop(MissingResult)
    case (_, DuplicatePD) => Drop(DuplicateProbe)
    case (_, ProbeError) => Drop(FailedProbe)
    case (_, NoResult) => Drop(MissingResult)
    case (Completed(nearResult), Completed(farResult)) => Forward(BuildFIE(agentID, pd, nearResult, farResult))
  }
}
