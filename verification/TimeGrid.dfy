/** Buckets of time: instants that are multiples of a width, and the bucket an instant lies in. */
module TimeGrid {

  const MINUTE: nat := 60_000_000
  const HOUR: nat := 60 * MINUTE

  lemma Scales(i: int, j: int, step: int)
    requires i <= j && 0 <= step
    ensures i * step <= j * step
  {
  }

  predicate Aligned(at: int, width: int) {
    width > 0 && at % width == 0
  }

  lemma Multiples(q: int, width: int)
    requires width > 0
    ensures (q * width) % width == 0
  {
    var x := q * width;
    var p := x / width;
    assert x == p * width + x % width;
    assert (p + 1) * width == p * width + width && (p - 1) * width == p * width - width;
    if p < q {
      Scales(p + 1, q, width);
    } else if p > q {
      Scales(q, p - 1, width);
    }
  }

  // The start of the bucket that holds an instant.
  function Floor(at: int, width: int): (b: int)
    requires width > 0
    ensures Aligned(b, width) && b <= at < b + width
  {
    Multiples(at / width, width);
    at - at % width
  }

  lemma FloorUnique(at: int, b: int, width: int)
    requires Aligned(b, width)
    ensures Floor(at, width) == b <==> b <= at < b + width
  {
    if b <= at < b + width {
      var c := Floor(at, width);
      assert c == width * (c / width) && b == width * (b / width);
      if c / width < b / width {
        Scales(c / width + 1, b / width, width);
      } else if c / width > b / width {
        Scales(b / width + 1, c / width, width);
      }
    }
  }

  lemma NextAligned(b: int, width: int)
    requires Aligned(b, width)
    ensures Aligned(b + width, width)
  {
    assert b + width == (b / width + 1) * width;
    Multiples(b / width + 1, width);
  }

  // Bucket starts are a width apart.
  lemma Ordered(a: int, b: int, width: int)
    requires Aligned(a, width) && Aligned(b, width) && a < b
    ensures a + width <= b
  {
    FloorUnique(b, a, width);
    FloorUnique(b, b, width);
  }

  lemma FirstBucket(a: int, b: int, width: int)
    requires width > 0 && a <= b
    ensures Floor(a, width) <= Floor(b, width)
  {
    if Floor(b, width) < Floor(a, width) {
      Ordered(Floor(b, width), Floor(a, width), width);
    }
  }

  lemma AlignedFiner(at: int, wide: int, width: int)
    requires Aligned(at, wide) && Aligned(wide, width)
    ensures Aligned(at, width)
  {
    var q, p := at / wide, wide / width;
    assert at == q * wide && wide == p * width;
    assert at == (q * p) * width;
    Multiples(q * p, width);
  }
}
