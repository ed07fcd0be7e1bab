/** Images, pixel rectangles, the margin crop shared by both face systems, and
    NumPy's slice arithmetic on an image axis. */
module Geometry {

  /** A decoded image (`image.shape[1]` wide, `image.shape[0]` high); only its
      size matters to the discrete logic. */
  datatype Image = Image(width: nat, height: nat, pixels: seq<bv8>)

  /** A rectangle as the cascade detector reports it: (x, y, w, h). */
  datatype Rect = Rect(x: int, y: int, w: int, h: int)

  /** What a cascade detector returns: a rectangle with a non-negative
      corner and a positive size. */
  type FaceRect = r: Rect | 0 <= r.x && 0 <= r.y && r.w > 0 && r.h > 0
    witness Rect(0, 0, 1, 1)

  /** The half-open window [x1, x2) x [y1, y2) of `image[y1:y2, x1:x2]`. */
  datatype Window = Window(x1: int, y1: int, x2: int, y2: int)

  function Area(r: Rect): int
  {
    r.w * r.h
  }

  predicate InImage(r: Rect, width: nat, height: nat)
  {
    0 <= r.x && 0 <= r.y && 0 <= r.w && 0 <= r.h &&
    r.x + r.w <= width && r.y + r.h <= height
  }

  function Max(a: int, b: int): int { if a >= b then a else b }

  function Min(a: int, b: int): int { if a <= b then a else b }

  /** The crop `x1 = max(0, x - margin)`, `y1 = max(0, y - margin)`,
      `x2 = min(W, x + w + margin)`, `y2 = min(H, y + h + margin)`: it never
      leaves the image, it contains a face that lies in the image, and it
      grows the face by exactly the margin on each side the border allows. */
  function CropWindow(r: Rect, width: nat, height: nat, margin: nat): (c: Window)
    ensures 0 <= c.x1 && 0 <= c.y1 && c.x2 <= width && c.y2 <= height
    ensures InImage(r, width, height) ==>
              c.x1 <= r.x && r.x + r.w <= c.x2 && c.y1 <= r.y && r.y + r.h <= c.y2
    ensures margin <= r.x ==> c.x1 == r.x - margin
    ensures margin <= r.y ==> c.y1 == r.y - margin
    ensures r.x + r.w + margin <= width ==> c.x2 == r.x + r.w + margin
    ensures r.y + r.h + margin <= height ==> c.y2 == r.y + r.h + margin
  {
    Window(Max(0, r.x - margin), Max(0, r.y - margin),
           Min(width, r.x + r.w + margin), Min(height, r.y + r.h + margin))
  }

  /** NumPy's normalisation of a slice bound i on an axis of length n:
      negative bounds count from the end, and both ends are clamped. */
  function SliceBound(i: int, n: nat): (j: nat)
    ensures j <= n
    ensures 0 <= i <= n ==> j == i
  {
    if i < 0 then (if i + n < 0 then 0 else i + n)
    else if i > n then n
    else i
  }

  /** The length of `a[start:stop]` on an axis of length n. */
  function SliceLen(start: int, stop: int, n: nat): (len: nat)
    ensures len <= n
  {
    var a, b := SliceBound(start, n), SliceBound(stop, n);
    if b > a then b - a else 0
  }

  /** A crop window of an in-image face is a non-empty slice of exactly its
      own width and height. */
  lemma CropWindowSlice(r: Rect, width: nat, height: nat, margin: nat)
    requires InImage(r, width, height) && r.w > 0 && r.h > 0
    ensures var c := CropWindow(r, width, height, margin);
            SliceLen(c.x1, c.x2, width) == c.x2 - c.x1 > 0 &&
            SliceLen(c.y1, c.y2, height) == c.y2 - c.y1 > 0
  {
  }

  /** The slice `frame[y:y+h, x:x+w]` of a detector rectangle is empty
      exactly when the rectangle starts outside the frame. */
  lemma FaceSliceEmpty(r: FaceRect, width: nat, height: nat)
    ensures (SliceLen(r.y, r.y + r.h, height) == 0 || SliceLen(r.x, r.x + r.w, width) == 0)
            <==> (r.y >= height || r.x >= width)
  {
  }
}
