/**
 * The module-level logic of the image service: the upload content-type gate
 * and the in-place Game Boy Camera filter over a decoded grayscale grid.
 *
 * The grid is the numpy array the pipeline builds from the shrunk image:
 * `Length0` is its number of rows (the image height), `Length1` its number of
 * columns (the width). The filter overwrites every cell where it stands.
 */
module Images {
  import opened Quantizer

  /** An outcome of a check that either lets the request through or refuses it with a title and a description. */
  datatype Outcome = Pass | BadRequest(title: string, description: string)

  /** The content types an upload may declare. */
  const AllowedImageTypes: seq<string> := ["image/gif", "image/jpeg", "image/png"]

  /** The upload gate: an image type outside the allowed list is a bad request. */
  function ValidateImageType(contentType: string): (r: Outcome)
    ensures r == Pass <==>
      contentType == "image/gif" || contentType == "image/jpeg" || contentType == "image/png"
    ensures r != Pass ==> r == BadRequest("Bad request", "Image type not allowed. Must be PNG, JPEG, or GIF")
  {
    if contentType !in AllowedImageTypes then
      BadRequest("Bad request", "Image type not allowed. Must be PNG, JPEG, or GIF")
    else
      Pass
  }

  /**
   * Applies the Game Boy Camera filter to `img` in place, row by row: every
   * cell becomes the shade its own old value and its coordinates select, and
   * no cell is read or written on behalf of another.
   */
  method GbcFilter(img: array2<Luma>)
    modifies img
    ensures forall i, j :: 0 <= i < img.Length0 && 0 <= j < img.Length1 ==>
      img[i, j] == Level(old(img[i, j]), i, j)
  {
    for i := 0 to img.Length0
      invariant forall r, c :: 0 <= r < i && 0 <= c < img.Length1 ==>
        img[r, c] == Level(old(img[r, c]), r, c)
      invariant forall r, c :: i <= r < img.Length0 && 0 <= c < img.Length1 ==>
        img[r, c] == old(img[r, c])
    {
      for j := 0 to img.Length1
        invariant forall r, c :: 0 <= r < i && 0 <= c < img.Length1 ==>
          img[r, c] == Level(old(img[r, c]), r, c)
        invariant forall c :: 0 <= c < j ==> img[i, c] == Level(old(img[i, c]), i, c)
        invariant forall c :: j <= c < img.Length1 ==> img[i, c] == old(img[i, c])
        invariant forall r, c :: i < r < img.Length0 && 0 <= c < img.Length1 ==>
          img[r, c] == old(img[r, c])
      {
        var v := img[i, j];
        var out: int;
        if v >= 236 {
          out := 255;
        } else if v >= 216 {
          out := 255 - ((i % 2) * (j % 2) * 83);
        } else if v >= 196 {
          out := 255 - (((j + i + 1) % 2) * 83);
        } else if v >= 176 {
          out := 172 + (((i + 1) % 2) * (j % 2) * 83);
        } else if v >= 157 {
          out := 172;
        } else if v >= 137 {
          out := 172 - ((i % 2) * (j % 2) * 86);
        } else if v >= 117 {
          out := 172 - (((j + i + 1) % 2) * 86);
        } else if v >= 97 {
          out := 86 + (((i + 1) % 2) * (j % 2) * 86);
        } else if v >= 78 {
          out := 86;
        } else if v >= 58 {
          out := 86 - ((i % 2) * (j % 2) * 86);
        } else if v >= 38 {
          out := 86 - (((j + i + 1) % 2) * 86);
        } else if v >= 18 {
          out := 0 + (((i + 1) % 2) * (j % 2) * 86);
        } else {
          out := 0;
        }
        assert out == Level(v, i, j);
        img[i, j] := out;
      }
    }
  }
}
