/** Sizing of the user root filesystem disk, in 64-bit arithmetic. */
module Capacity {
  import opened Words

  const MIN_USER_ROOTFS: int := 256 * 1024 * 1024
  const USER_ROOTFS_SLACK: int := 128 * 1024 * 1024

  /** More containers than this overflow the per-container minimum. */
  const MAX_WORKLOADS: int := 0x7_ffff_ffff

  /** The minimum size for `n` containers, at least one. */
  function Floor(n: int): (f: Int64)
    requires n <= MAX_WORKLOADS
    ensures f >= MIN_USER_ROOTFS
  {
    MIN_USER_ROOTFS * if n < 1 then 1 else n
  }

  /** UserRootfsCapacityN: image size plus slack, at least the floor. */
  function CapacityN(imageBytes: Int64, n: int): (c: Int64)
    requires n <= MAX_WORKLOADS
  {
    var sized := AddInt64(imageBytes, USER_ROOTFS_SLACK);
    if sized < Floor(n) then Floor(n) else sized
  }

  /** The image size plus slack fits 64 bits. */
  predicate Fits(imageBytes: Int64) { imageBytes + USER_ROOTFS_SLACK <= INT64_MAX }

  /** The disk holds the image and 128 MiB more, exactly when the sum fits. */
  lemma RoomForTheImage(imageBytes: Int64, n: int)
    requires n <= MAX_WORKLOADS
    ensures CapacityN(imageBytes, n) >= imageBytes + USER_ROOTFS_SLACK <==> Fits(imageBytes)
  {
  }

  /** In numbers: at least 256 MiB for each container, counting at least one, at
      least 128 MiB more than the image, and no more than one of the two. */
  lemma CapacityIs(imageBytes: Int64, n: int)
    requires n <= MAX_WORKLOADS && imageBytes <= 0x7fff_ffff_f7ff_ffff
    ensures var c, floor := CapacityN(imageBytes, n), 0x1000_0000 * if n < 1 then 1 else n;
            var sized := imageBytes + 0x800_0000;
            c >= floor && c >= sized && (c == floor || c == sized)
    ensures Fits(imageBytes)
  {
  }

  /** Past that the sum wraps and the floor is left. */
  lemma WrappedCapacityIs(imageBytes: Int64, n: int)
    requires n <= MAX_WORKLOADS && imageBytes > 0x7fff_ffff_f7ff_ffff
    ensures CapacityN(imageBytes, n) == 0x1000_0000 * (if n < 1 then 1 else n) && !Fits(imageBytes)
  {
  }

  /** Growing with the image, as long as the larger one fits. */
  lemma CapacityGrows(a: Int64, b: Int64, n: int)
    requires n <= MAX_WORKLOADS && a <= b && Fits(b)
    ensures CapacityN(a, n) <= CapacityN(b, n)
  {
  }

  /** A disk built for `b` bytes is large enough for every smaller image exactly
      when `b` plus slack fits: past that the sum wraps to the floor. */
  lemma BuiltIsEnoughExactly(b: Int64, n: int)
    requires n <= MAX_WORKLOADS
    ensures (forall a: Int64 :: a <= b ==> CapacityN(a, n) <= CapacityN(b, n)) <==> Fits(b)
  {
    if !Fits(b) {
      var a := INT64_MAX - USER_ROOTFS_SLACK;
      assert a <= b && CapacityN(a, n) == INT64_MAX && CapacityN(b, n) == Floor(n);
    }
  }
}
