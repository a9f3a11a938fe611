// The concrete expectations of the library's tests, stated on the blur rules
// and proved from the general lemmas of module Kernel.
module Scenarios {
  import opened Image
  import opened Kernel

  /** A 512 x 512 channel buffer holding one value everywhere. */
  function UniformChannel(v: uint8): seq<uint8>
  {
    seq(512 * 512, _ => v)
  }

  /**
   * A uniform 512 x 512 interleaved image of (100, 150, 200) keeps that pixel
   * at the corner and everywhere else.
   */
  lemma NaiveUniformScenario(image: seq<Pixel>)
    requires |image| == 512 * 512
    requires forall k :: 0 <= k < |image| ==> image[k] == Pixel(100, 150, 200)
    ensures NaiveBox3x3(image, 512, 512)[0] == Pixel(100, 150, 200)
    ensures NaiveBox3x3(image, 512, 512) == image
  {
    NaiveUniform(image, 512, 512, Pixel(100, 150, 200));
  }

  /** A uniform 512 x 512 planar image (30, 120, 76) keeps its values at the interior index 513. */
  lemma CacheOptimizedUniformScenario()
    ensures Box3x3(UniformChannel(30), 512, 512)[513] == 30
    ensures Box3x3(UniformChannel(120), 512, 512)[513] == 120
    ensures Box3x3(UniformChannel(76), 512, 512)[513] == 76
  {
    Box3x3Uniform(UniformChannel(30), 512, 512, 30);
    Box3x3Uniform(UniformChannel(120), 512, 512, 120);
    Box3x3Uniform(UniformChannel(76), 512, 512, 76);
  }

  /** The same image through the separable blur keeps its values at index 513. */
  lemma SeparableUniformScenario()
    ensures Separable(UniformChannel(30), 512, 512)[513] == 30
    ensures Separable(UniformChannel(120), 512, 512)[513] == 120
    ensures Separable(UniformChannel(76), 512, 512)[513] == 76
  {
    SeparableUniform(UniformChannel(30), 512, 512, 30);
    SeparableUniform(UniformChannel(120), 512, 512, 120);
    SeparableUniform(UniformChannel(76), 512, 512, 76);
  }

  /** Rows 100s / 50 60 70 80 / 100s, width 4: index 1 stays 100, index 5 is (50+60+70)/3. */
  lemma HorizontalScenario(c: seq<uint8>)
    requires c == [100, 100, 100, 100, 50, 60, 70, 80, 100, 100, 100, 100]
    ensures HorizontalFits(|c|, 4)
    ensures HorizontalPass(c, 4)[1] == 100
    ensures HorizontalPass(c, 4)[5] == 60
  {
    assert c[0] == 100 && c[1] == 100 && c[2] == 100;
    assert c[4] == 50 && c[5] == 60 && c[6] == 70;
    HorizontalRule(c, 4, 1);
    HorizontalRule(c, 4, 5);
  }

  /** Width 4, values 10..120: index 1 of the top row is blurred horizontally, to (10+20+30)/3. */
  lemma HorizontalTopRowScenario(c: seq<uint8>)
    requires c == [10, 20, 30, 40, 50, 60, 70, 80, 90, 100, 110, 120]
    ensures HorizontalFits(|c|, 4)
    ensures HorizontalPass(c, 4)[1] == 20
  {
    assert c[0] == 10 && c[1] == 20 && c[2] == 30;
    HorizontalRule(c, 4, 1);
  }

  /** The green channel of the replicate test, width 4: index 5 gives 45 and index 1 gives 50. */
  lemma HorizontalReplicateScenario(c: seq<uint8>)
    requires c == [30, 50, 70, 90, 50, 75, 10, 100, 10, 10, 60, 80]
    ensures HorizontalFits(|c|, 4)
    ensures HorizontalPass(c, 4)[5] == 45
    ensures HorizontalPass(c, 4)[1] == 50
  {
    assert c[0] == 30 && c[1] == 50 && c[2] == 70;
    assert c[4] == 50 && c[5] == 75 && c[6] == 10;
    HorizontalRule(c, 4, 5);
    HorizontalRule(c, 4, 1);
  }

  /** The 3 x 3 channel of SeparableDiffersScenario: its direct blur has centre 9/9 = 1. */
  lemma DirectCentreScenario(c: seq<uint8>)
    requires c == [0, 2, 0, 0, 2, 0, 0, 5, 0]
    ensures ValidShape(|c|, 3, 3)
    ensures Box3x3(c, 3, 3)[4] == 1
  {
    assert c[0] == 0 && c[1] == 2 && c[2] == 0 && c[3] == 0 && c[4] == 2;
    assert c[5] == 0 && c[6] == 0 && c[7] == 5 && c[8] == 0;
    assert !IsBorder(4, 3, 3);
    Box3x3Rule(c, 3, 3, 4);
  }

  /**
   * A 3 x 3 channel whose centre the two blurs treat differently: the direct
   * average is 9/9 = 1, the separable one truncates the row sums 2, 2, 5 to
   * 0, 0, 1 and then (0+0+1)/3 to 0.
   */
  lemma SeparableDiffersScenario(c: seq<uint8>)
    requires c == [0, 2, 0, 0, 2, 0, 0, 5, 0]
    ensures ValidShape(|c|, 3, 3)
    ensures Separable(c, 3, 3)[4] == 0
    ensures Separable(c, 3, 3)[4] != Box3x3(c, 3, 3)[4]
  {
    DirectCentreScenario(c);
    var rowUp, rowMid, rowDown := 2, 2, 5;
    assert Separable(c, 3, 3)[4] as int == (rowMid / 3 + rowUp / 3 + rowDown / 3) / 3 by {
      assert c[0] == 0 && c[1] == 2 && c[2] == 0 && c[3] == 0 && c[4] == 2;
      assert c[5] == 0 && c[6] == 0 && c[7] == 5 && c[8] == 0;
      assert !IsBorder(4, 3, 3);
      SeparableAtInterior(c, 3, 3, 4);
    }
  }
}
