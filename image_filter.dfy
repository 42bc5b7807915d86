/** Which directory entries main treats as images: those whose lower-cased
    name ends with ".png", ".jpg" or ".jpeg". Lower-casing is ASCII only. */
module ImageFilter {

  /** The suffixes main accepts, compared against the lower-cased name. */
  const ImageSuffixes: seq<string> := [".png", ".jpg", ".jpeg"]

  /** ASCII lower-casing of one character: an upper-case letter becomes the
      letter at the same place in the lower-case alphabet; every other
      character is kept. */
  function LowerChar(c: char): (r: char)
    ensures 'A' <= c <= 'Z' ==> r == "abcdefghijklmnopqrstuvwxyz"[c as int - 'A' as int]
    ensures !('A' <= c <= 'Z') ==> r == c
    ensures !('A' <= r <= 'Z')
  {
    if 'A' <= c <= 'Z' then (c as int - 'A' as int + 'a' as int) as char else c
  }

  /** ASCII lower-casing of a whole name, character by character. */
  function Lower(s: string): (r: string)
    ensures |r| == |s|
    ensures forall i | 0 <= i < |r| :: !('A' <= r[i] <= 'Z')
  {
    seq(|s|, i requires 0 <= i < |s| => LowerChar(s[i]))
  }

  predicate EndsWith(s: string, suffix: string)
  {
    |suffix| <= |s| && s[|s| - |suffix|..] == suffix
  }

  /** True when `s` ends with one of `suffixes`, as a suffix tuple is matched. */
  predicate EndsWithAny(s: string, suffixes: seq<string>)
  {
    exists k | 0 <= k < |suffixes| :: EndsWith(s, suffixes[k])
  }

  /** The test main applies to each directory entry. */
  predicate IsImageName(name: string)
  {
    EndsWithAny(Lower(name), ImageSuffixes)
  }

  /** The image names of a listing, in listing order. */
  function SelectImages(listing: seq<string>): (selected: seq<string>)
    ensures forall name :: name in selected <==> name in listing && IsImageName(name)
    ensures |selected| <= |listing|
    decreases |listing|
  {
    if listing == [] then []
    else
      var init, last := listing[..|listing| - 1], listing[|listing| - 1];
      assert listing == init + [last];
      if IsImageName(last) then SelectImages(init) + [last] else SelectImages(init)
  }

  lemma LowerAppend(a: string, b: string)
    ensures Lower(a + b) == Lower(a) + Lower(b)
  {
    assert forall i | 0 <= i < |a + b| :: Lower(a + b)[i] == (Lower(a) + Lower(b))[i];
  }

  /** Any stem followed by an image suffix, in any mix of upper and lower
      case, is an image name. */
  lemma ImageNameWithSuffix(stem: string, ext: string)
    requires Lower(ext) in ImageSuffixes
    ensures IsImageName(stem + ext)
  {
    LowerAppend(stem, ext);
    var lower := Lower(stem + ext);
    var k :| 0 <= k < |ImageSuffixes| && ImageSuffixes[k] == Lower(ext);
    assert lower[|lower| - |ImageSuffixes[k]|..] == Lower(ext);
    assert EndsWith(lower, ImageSuffixes[k]);
  }

  /** Conversely, every image name is a stem followed by a suffix whose
      lower-cased form is one of the image suffixes. */
  lemma ImageNameSplits(name: string) returns (stem: string, ext: string)
    requires IsImageName(name)
    ensures name == stem + ext
    ensures Lower(ext) in ImageSuffixes
  {
    var k :| 0 <= k < |ImageSuffixes| && EndsWith(Lower(name), ImageSuffixes[k]);
    var cut := |name| - |ImageSuffixes[k]|;
    stem, ext := name[..cut], name[cut..];
    assert name == stem + ext;
    LowerAppend(stem, ext);
    assert Lower(ext) == Lower(name)[cut..];
  }

  /** A name without upper-case ASCII letters is its own lower-cased form. */
  lemma LowerKeepsLowerCase(s: string)
    requires forall i | 0 <= i < |s| :: !('A' <= s[i] <= 'Z')
    ensures Lower(s) == s
  {
    assert forall i | 0 <= i < |s| :: Lower(s)[i] == s[i];
  }

  /** Matching ignores case: an upper-case ".PNG" name is selected. */
  lemma UpperCasePngSelected()
    ensures IsImageName("A.PNG")
  {
    assert Lower(".PNG") == ImageSuffixes[0] by {
      assert LowerChar('.') == '.' && LowerChar('P') == 'p' && LowerChar('N') == 'n' && LowerChar('G') == 'g';
      assert forall i | 0 <= i < 4 :: Lower(".PNG")[i] == ".png"[i];
    }
    assert "A" + ".PNG" == "A.PNG";
    ImageNameWithSuffix("A", ".PNG");
  }

  /** Matching ignores case: a mixed-case ".JpEg" name is selected. */
  lemma MixedCaseJpegSelected()
    ensures IsImageName("b.JpEg")
  {
    assert Lower(".JpEg") == ImageSuffixes[2] by {
      assert LowerChar('.') == '.' && LowerChar('J') == 'j' && LowerChar('E') == 'e';
      assert forall i | 0 <= i < 5 :: Lower(".JpEg")[i] == ".jpeg"[i];
    }
    assert "b" + ".JpEg" == "b.JpEg";
    ImageNameWithSuffix("b", ".JpEg");
  }

  /** A name whose lower-cased form ends otherwise is not selected. */
  lemma TextFileRejected()
    ensures !IsImageName("notes.txt")
  {
    LowerKeepsLowerCase("notes.txt");
  }

  /** An image suffix earlier in the name does not make it an image name. */
  lemma BackupOfImageRejected()
    ensures !IsImageName("x.png.bak")
  {
    LowerKeepsLowerCase("x.png.bak");
  }

  /** The suffix must include the dot: a bare "jpeg" is not selected. */
  lemma BareExtensionRejected()
    ensures !IsImageName("jpeg")
  {
    LowerKeepsLowerCase("jpeg");
  }

  /** Selection distributes over concatenation of listings, so it keeps the
      relative order of the entries it selects. */
  lemma {:induction false} SelectImagesAppend(a: seq<string>, b: seq<string>)
    ensures SelectImages(a + b) == SelectImages(a) + SelectImages(b)
    decreases |b|
  {
    if b == [] {
      assert a + b == a;
    } else {
      var init := b[..|b| - 1];
      assert (a + b)[..|a + b| - 1] == a + init;
      assert (a + b)[|a + b| - 1] == b[|b| - 1];
      SelectImagesAppend(a, init);
    }
  }

  /** The image at position i of the listing sits in the selection at the
      position given by the number of images before it. */
  lemma SelectedPosition(listing: seq<string>, i: nat)
    requires i < |listing| && IsImageName(listing[i])
    ensures |SelectImages(listing[..i])| < |SelectImages(listing)|
    ensures SelectImages(listing)[|SelectImages(listing[..i])|] == listing[i]
  {
    assert listing == listing[..i] + [listing[i]] + listing[i + 1..];
    SelectImagesAppend(listing[..i] + [listing[i]], listing[i + 1..]);
    SelectImagesAppend(listing[..i], [listing[i]]);
    assert SelectImages([listing[i]]) == [listing[i]] by {
      assert [listing[i]][..0] == [];
    }
  }

  /** An image earlier in the listing has a smaller position in the selection. */
  lemma SelectedPositionsIncrease(listing: seq<string>, i: nat, j: nat)
    requires i < j <= |listing| && IsImageName(listing[i])
    ensures |SelectImages(listing[..i])| < |SelectImages(listing[..j])|
  {
    var prefix := listing[..j];
    assert prefix[..i] == listing[..i];
    SelectedPosition(prefix, i);
  }
}
