/** From one node's store to another's: a bundle's manifest is packed, travels in pieces or over the
    one-way transport, and is unpacked. */
module BundleDelivery {
  import opened Bits
  import opened ManifestText
  import opened OutnetLane
  import opened OutnetPackets
  import opened OutnetZone
  import OutnetRun
  import OutnetTransfer
  import PieceRun

  /** Manifests that are kept for sending, and that every decoder gives back. */
  ghost predicate Sendable(manifest: seq<byte>) {
    |manifest| <= 1022 && StartsLow(manifest, true) && ToBinary(manifest) != Never
  }

  /** What goes over the air for a manifest. */
  function OnAir(manifest: seq<byte>): (s: seq<byte>)
    requires Sendable(manifest)
  {
    SmallManifestsDecode(manifest);
    ToBinary(manifest).s
  }

  lemma OnAirDecodes(manifest: seq<byte>)
    requires Sendable(manifest)
    ensures ToText(OnAir(manifest)) == Decoded(manifest)
  {
    hide ToText, ToBinary, StartsLow;
    SmallManifestsDecode(manifest);
  }

  /** Whatever happens to the pieces, every bundle put together is the one sent, manifest and body. */
  lemma PiecesDeliver(events: seq<PieceRun.Event>, manifest: seq<byte>, body: seq<byte>, version: nat)
    requires Sendable(manifest) && PieceRun.Versioned(body, version)
    requires PieceRun.AllGenuine(events, OnAir(manifest), body)
    ensures forall i :: 0 <= i < |PieceRun.Run(events, version).1| ==>
              var h := PieceRun.Run(events, version).1[i];
              h.body == body && ToText(h.manifest) == Decoded(manifest)
  {
    hide ToText, OnAir, Sendable, PieceRun.Run, PieceRun.AllGenuine;
    PieceRun.RunExact(events, OnAir(manifest), body, version);
    OnAirDecodes(manifest);
  }

  /** Over the one-way transport, with the first three packets of every zone brought over: the bundle
      sent is the last thing handed on. */
  lemma TransportDelivers(l: Lane, c: Cast, manifest: seq<byte>, copies: seq<nat>)
    requires Sendable(manifest) && c.manifest == OnAir(manifest)
    requires c.Fits() && Resting(l) && l.waiting && |copies| == 4 * c.Zones() && OutnetTransfer.BringsThree(copies)
    ensures |copies| > 0 && OutnetRun.GoodRun(c, OutnetTransfer.Heard(copies, |copies|))
    ensures var r := OutnetRun.Run(l, c, OutnetTransfer.Heard(copies, |copies|));
            if copies[|copies| - 1] > 0 then GivesLast(r.given, manifest, c.body)
            else forall x: Packet :: x.start ==> GivesLast(Begun(r, x).given, manifest, c.body)
  {
    hide ToText, OnAir, Sendable, OutnetRun.Run, Cast.Zones, Resting, Begun, OutnetTransfer.Heard, OutnetRun.GoodRun,
         OutnetTransfer.BringsThree;
    OutnetTransfer.TransferDelivers(l, c, copies);
    OnAirDecodes(manifest);
  }

  ghost predicate GivesLast(given: seq<Received>, manifest: seq<byte>, body: seq<byte>) {
    && given != [] && given[|given| - 1].payload == body
    && ToText(given[|given| - 1].manifest) == Decoded(manifest)
  }
}
