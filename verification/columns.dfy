/** What the columns of a heard row say by themselves: the reference the rolled families and the readers are held
    against. */
module RowColumns {
  import opened Base
  import opened SetBuckets
  import opened Families

  // ---- the signal readings ----

  /** An RSSI and an SNR that are both zero or missing were not reported. */
  ghost predicate Unreported(r: Row) {
    (r.rssi.None? || r.rssi.value == 0) && (r.snr.None? || r.snr.value == 0.0)
  }

  ghost predicate HasSnr(r: Row) {
    r.snr.Some? && !Unreported(r)
  }

  ghost predicate HasRssi(r: Row) {
    r.rssi.Some? && !Unreported(r)
  }

  lemma SnrOfColumns(r: Row)
    ensures ReportedSnr(r).Some? <==> HasSnr(r)
    ensures HasSnr(r) ==> ReportedSnr(r).value == r.snr.value
  {
  }

  lemma RssiOfColumns(r: Row)
    ensures ReportedRssi(r).Some? <==> HasRssi(r)
    ensures HasRssi(r) ==> ReportedRssi(r).value == r.rssi.value
  {
  }

  // ---- the path columns ----

  /** The path-length byte packs a hash width of 1 to 3 bytes above a hop count of 0 to 63, the columns repeat both,
      and so many bytes are stored, 64 at most. */
  ghost predicate PathFits(r: Row) {
    exists width, hops ::
      && 1 <= width <= 3 && 0 <= hops <= 63 && r.pathLengthByte == 64 * (width - 1) + hops
      && r.hashSize == width && r.hopCount == hops && r.pathLen == width * hops && width * hops <= 64
  }

  /** A payload type of four bits other than 9, with a path that fits. */
  ghost predicate HasPath(r: Row) {
    r.payloadType.Some? && 0 <= r.payloadType.value <= 15 && r.payloadType.value != 9 && PathFits(r)
  }

  ghost predicate IsTrace(r: Row) {
    r.payloadType == Some(9)
  }

  ghost predicate IsZeroHop(r: Row) {
    HasPath(r) && r.hopCount == 0
  }

  ghost predicate IsRouted(r: Row) {
    HasPath(r) && r.hopCount > 0
  }

  ghost predicate IsUnclassified(r: Row) {
    !IsTrace(r) && !HasPath(r)
  }

  lemma ValidPathFits(r: Row)
    ensures ValidPath(r) <==> PathFits(r)
  {
    if ValidPath(r) {
      var width, hops := r.hashSize, r.hopCount;
      assert r.pathLengthByte == 64 * (width - 1) + hops;
    }
    if PathFits(r) {
      var width, hops :|
        && 1 <= width <= 3 && 0 <= hops <= 63 && r.pathLengthByte == 64 * (width - 1) + hops
        && r.hashSize == width && r.hopCount == hops && r.pathLen == width * hops && width * hops <= 64;
    }
  }

  /** The category column, in these terms. */
  lemma CategoryOfColumns(r: Row)
    ensures PathCategory(r) == 0 <==> IsRouted(r)
    ensures PathCategory(r) == 1 <==> IsZeroHop(r)
    ensures PathCategory(r) == 2 <==> IsTrace(r)
    ensures PathCategory(r) == 3 <==> IsUnclassified(r)
  {
    ValidPathFits(r);
  }
}
