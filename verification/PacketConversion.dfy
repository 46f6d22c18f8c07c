/** Conversion of import packets and the check a packet passes before it reaches the cache. */
module PacketConversion {
  import opened Wrappers
  import opened Messages
  import opened Identifiers

  /** The data types the cache can hold. */
  function CacheTypeOf(t: ImportType): Option<CacheType> {
    match t
    case ImportInteger32 => Some(Integer32)
    case ImportDouble => Some(Double)
    case ImportFloat => Some(Float)
    case ImportInteger64 => Some(Integer64)
    case ImportUnknown => Some(Unknown)
    case ImportText => None
    case Unrecognized(_) => None
  }

  predicate Convertible(p: ImportPacket) {
    && p.samplingRate.Some? && p.samplingRate.value > 0.0
    && p.startTime.Some?
    && p.numberOfSamples.Some?
    && CacheTypeOf(p.Type()).Some?
  }

  /** The stored form: every field kept, the identifier dropped, missing data read as no bytes. */
  function CacheForm(p: ImportPacket): CachePacket
    requires Convertible(p)
  {
    CachePacket(p.startTime.value, p.samplingRate.value, CacheTypeOf(p.Type()).value,
                p.numberOfSamples.value, p.data.GetOr([]))
  }

  /** The import type of a cache type. */
  function ImportTypeOf(t: CacheType): ImportType {
    match t
    case Unknown => ImportUnknown
    case Integer32 => ImportInteger32
    case Float => ImportFloat
    case Double => ImportDouble
    case Integer64 => ImportInteger64
  }

  /** The import packet of a stored one and an identifier. */
  function Restored(c: CachePacket, id: Option<StreamIdentifier>): ImportPacket {
    ImportPacket(id, Some(c.startTime), Some(c.samplingRate), Some(ImportTypeOf(c.dataType)),
                 Some(c.numberOfSamples), Some(c.data))
  }

  /** Conversion loses nothing but the identifier and whether type and data were set or left at their
      defaults: the stored packet and the identifier give the packet back. */
  lemma ConversionRoundTrips(p: ImportPacket)
    requires Convertible(p)
    ensures Restored(CacheForm(p), p.streamIdentifier)
            == p.(dataType := Some(p.dataType.GetOr(ImportUnknown)), data := Some(p.data.GetOr([])))
  {
  }

  /** And every stored packet with a positive rate is the form of such a packet. */
  lemma RestoringRoundTrips(c: CachePacket, id: Option<StreamIdentifier>)
    ensures Convertible(Restored(c, id)) <==> c.samplingRate > 0.0
    ensures c.samplingRate > 0.0 ==> CacheForm(Restored(c, id)) == c
  {
  }

  /** The conversion, one rejection after the other. */
  method ConvertPacket(p: ImportPacket) returns (r: Result<CachePacket>)
    ensures r.Ok? <==> Convertible(p)
    ensures r.Ok? <==>
              && p.samplingRate.Some? && p.samplingRate.value > 0.0 && p.startTime.Some? && p.numberOfSamples.Some?
              && !p.Type().ImportText? && !p.Type().Unrecognized?
    ensures r.Ok? ==> r.value == CacheForm(p)
  {
    var result := CachePacket(Timestamp(0, 0), 0.0, Unknown, 0, []);
    if p.samplingRate.None? { return Err("Sampling rate not set"); }
    var samplingRate := p.Rate();
    if samplingRate <= 0.0 { return Err("Sampling rate must be positive"); }
    result := result.(samplingRate := samplingRate);

    if p.startTime.None? { return Err("Start time not set"); }
    result := result.(startTime := p.startTime.value);

    if p.numberOfSamples.None? { return Err("Number of samples not set"); }
    var nSamples := p.Samples();
    if nSamples < 0 { return Err("Number of samples must be non-negative"); }
    result := result.(numberOfSamples := nSamples);

    var dataType := p.Type();
    if dataType == ImportInteger32 {
      result := result.(dataType := Integer32);
    } else if dataType == ImportDouble {
      result := result.(dataType := Double);
    } else if dataType == ImportFloat {
      result := result.(dataType := Float);
    } else if dataType == ImportInteger64 {
      result := result.(dataType := Integer64);
    } else if dataType == ImportText {
      return Err("Text type not supported");
    } else {
      if dataType != ImportUnknown {
        return Err("Unhandled data type");
      } else {
        result := result.(dataType := Unknown);
      }
    }

    result := result.(data := p.data.GetOr([]));
    return Ok(result);
  }

  /** What the import loop demands of a packet. */
  predicate Usable(p: ImportPacket) {
    && p.streamIdentifier.Some?
    && Printed(p.streamIdentifier.value).Ok?
    && p.samplingRate.Some? && p.samplingRate.value > 0.0
    && p.dataType.Some?
    && p.Samples() >= 1
    && p.data.Some?
  }

  /** The check writes a reason only when it fails, and names the stream in it when it can. */
  method IsValid(p: ImportPacket, reasonBefore: string) returns (ok: bool, reason: string)
    ensures ok <==> Usable(p)
    ensures ok <==>
              && p.streamIdentifier.Some? && Printed(p.Identifier()).Ok?
              && p.samplingRate.Some? && p.samplingRate.value > 0.0
              && p.dataType.Some? && p.data.Some?
              && p.numberOfSamples.Some? && p.numberOfSamples.value > 0
    ensures ok ==> reason == reasonBefore
    ensures !ok && p.streamIdentifier.Some? && Printed(p.streamIdentifier.value).Ok? ==>
              Printed(p.streamIdentifier.value).value < reason
  {
    reason := reasonBefore;
    if p.streamIdentifier.None? {
      return false, "Packet does not have identifier";
    }
    var name := ToString(p.Identifier());
    if name.Err? {
      return false, "Could not determine input packet name because " + name.message;
    }
    if p.samplingRate.None? {
      return false, name.value + " does not have a sampling rate";
    }
    if p.Rate() <= 0.0 {
      return false, name.value + " has invalid sampling rate";
    }
    if p.dataType.None? {
      return false, name.value + " does not have a data type";
    }
    if p.Samples() < 1 || p.data.None? {
      return false, name.value + " has no data";
    }
    return true, reason;
  }
}
