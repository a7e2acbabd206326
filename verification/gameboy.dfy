/**
 * The stand-alone script's copy of the Game Boy Camera filter.
 *
 * The script repeats the resize helpers and the filter of the image service
 * line for line. Its resize helpers are the functions of `Resize`; its filter
 * loop is modelled here on its own and proved to produce, for every input
 * grid, the grid the service's filter produces.
 */
module GameBoy {
  import opened Quantizer
  import Images

  /**
   * This file's own copy of the filter, a separate loop over `img`. It is
   * proved against the same per-pixel `Level` as `Images.GbcFilter`.
   */
  method GbcFilter(img: array2<Luma>)
    modifies img
    ensures forall i, j :: 0 <= i < img.Length0 && 0 <= j < img.Length1 ==>
      img[i, j] == Level(old(img[i, j]), i, j)
  {
    for i := 0 to img.Length0
      invariant forall r, c :: 0 <= r < i && 0 <= c < img.Length1 ==>
        img[r, c] == Level(old(img[r, c]), r, c)
      invariant forall r, c :: i <= r < img.Length0 && 0 <= c < img.Length1 ==>
        img[r, c] == old(img[r, c])
    {
      for j := 0 to img.Length1
        invariant forall r, c :: 0 <= r < i && 0 <= c < img.Length1 ==>
          img[r, c] == Level(old(img[r, c]), r, c)
        invariant forall c :: 0 <= c < j ==> img[i, c] == Level(old(img[i, c]), i, c)
        invariant forall c :: j <= c < img.Length1 ==> img[i, c] == old(img[i, c])
        invariant forall r, c :: i < r < img.Length0 && 0 <= c < img.Length1 ==>
          img[r, c] == old(img[r, c])
      {
        var v := img[i, j];
        var out: int;
        if v >= 236 {
          out := 255;
        } else if v >= 216 {
          out := 255 - ((i % 2) * (j % 2) * 83);
        } else if v >= 196 {
          out := 255 - (((j + i + 1) % 2) * 83);
        } else if v >= 176 {
          out := 172 + (((i + 1) % 2) * (j % 2) * 83);
        } else if v >= 157 {
          out := 172;
        } else if v >= 137 {
          out := 172 - ((i % 2) * (j % 2) * 86);
        } else if v >= 117 {
          out := 172 - (((j + i + 1) % 2) * 86);
        } else if v >= 97 {
          out := 86 + (((i + 1) % 2) * (j % 2) * 86);
        } else if v >= 78 {
          out := 86;
        } else if v >= 58 {
          out := 86 - ((i % 2) * (j % 2) * 86);
        } else if v >= 38 {
          out := 86 - (((j + i + 1) % 2) * 86);
        } else if v >= 18 {
          out := 0 + (((i + 1) % 2) * (j % 2) * 86);
        } else {
          out := 0;
        }
        assert out == Level(v, i, j);
        img[i, j] := out;
      }
    }
  }

  /**
   * Runs both filters on equal grids: they leave equal grids behind, so the
   * two copies of `gbc_filter` are interchangeable.
   */
  method FiltersAgree(a: array2<Luma>, b: array2<Luma>)
    requires a != b
    requires a.Length0 == b.Length0 && a.Length1 == b.Length1
    requires forall i, j :: 0 <= i < a.Length0 && 0 <= j < a.Length1 ==> a[i, j] == b[i, j]
    modifies a, b
    ensures forall i, j :: 0 <= i < a.Length0 && 0 <= j < a.Length1 ==> a[i, j] == b[i, j]
  {
    Images.GbcFilter(a);
    GbcFilter(b);
  }
}
