module Numbers {
  function Max(a: real, b: real): real { if a < b then b else a }

  function Min(a: real, b: real): real { if a <= b then a else b }

  lemma TimesOrder(x: real, y: real, t: real)
    requires t > 0.0
    ensures x <= y <==> x * t <= y * t
  {
    if x > y {
      assert (x - y) * t > 0.0;
    } else {
      assert (y - x) * t >= 0.0;
    }
  }
}
