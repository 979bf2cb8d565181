/**
 * The result page's download name and its redirect and render guards.
 *
 * The download name strips a final extension from the original file name
 * with the regular expression `\.[^/.]+$`: a '.' followed, up to the end of
 * the name, by one or more characters none of which is '.' or '/'. The date
 * of the fallback name is a parameter.
 */
module ResultPage {
  import opened Base

  /** The regular expression matches at `i`: a '.' there, and a non-empty tail free of '.' and '/'. */
  predicate ExtensionAt(name: string, i: nat)
  {
    && i + 1 < |name|
    && name[i] == '.'
    && forall j :: i < j < |name| ==> name[j] != '.' && name[j] != '/'
  }

  /** `fileName.replace(/\.[^/.]+$/, '')` */
  function StripExtension(name: string): (stem: string)
    ensures forall i: nat :: ExtensionAt(name, i) ==> stem == name[..i]
    ensures (forall i: nat :: !ExtensionAt(name, i)) ==> stem == name
  {
    match LastIndex(name, '.')
    case None =>
      assert forall i: nat :: i < |name| ==> name[i] != '.';
      name
    case Some(i) =>
      if i + 1 < |name| && '/' !in name[i + 1..] then
        assert forall j :: i < j < |name| ==> name[j] == name[i + 1..][j - i - 1];
        assert ExtensionAt(name, i);
        name[..i]
      else
        assert forall k: nat :: !ExtensionAt(name, k) by {
          forall k: nat ensures !ExtensionAt(name, k) {
            if k < i {
              assert name[i] == '.';
            } else if k == i && i + 1 < |name| {
              var w :| w in name[i + 1..] && w == '/';
              var j :| 0 <= j < |name[i + 1..]| && name[i + 1..][j] == w;
              assert name[i + 1 + j] == '/';
            }
          }
        }
        name
  }

  /** A name made of a stem and one extension loses exactly the extension, even when the stem has dots of its own. */
  lemma StripsLastExtension(stem: string, ext: string)
    requires |ext| > 0 && '.' !in ext && '/' !in ext
    ensures StripExtension(stem + "." + ext) == stem
  {
    var name := stem + "." + ext;
    assert name[..|stem|] == stem;
    assert forall j :: |stem| < j < |name| ==> name[j] == ext[j - |stem| - 1];
    assert ExtensionAt(name, |stem|);
  }

  /** A name without a dot, or ending in one, is kept whole. */
  lemma KeepsNameWithoutExtension(name: string)
    requires '.' !in name || name[|name| - 1] == '.'
    ensures StripExtension(name) == name
  {
    assert forall i: nat :: !ExtensionAt(name, i) by {
      forall i: nat ensures !ExtensionAt(name, i) {
        if i + 1 < |name| && name[i] == '.' {
          assert name[|name| - 1] == '.';
        }
      }
    }
  }

  /**
   * The download name: `processed_<stem>.jpg` for a non-empty file name,
   * else `processed_photo_<first ten characters of the ISO date>.jpg`.
   */
  function DownloadName(fileName: string, isoDate: string): (n: string)
    ensures fileName != "" ==> n == "processed_" + StripExtension(fileName) + ".jpg"
    ensures fileName == "" ==> n == "processed_photo_" + isoDate[..if |isoDate| < 10 then |isoDate| else 10] + ".jpg"
  {
    if fileName != "" then "processed_" + StripExtension(fileName) + ".jpg"
    else "processed_photo_" + isoDate[..if |isoDate| < 10 then |isoDate| else 10] + ".jpg"
  }

  /** `a.tar.gz` is downloaded as `processed_a.tar.jpg`. */
  lemma DoubleExtension()
    ensures DownloadName("a.tar.gz", "") == "processed_a.tar.jpg"
  {
    StripsLastExtension("a.tar", "gz");
    assert "a.tar" + "." + "gz" == "a.tar.gz";
  }

  /** The page's inputs: whether a processed photo is present and whether the status is SUCCESS. */
  datatype PageState = PageState(hasProcessedPhoto: bool, isSuccess: bool)

  /** The effect redirects to `/upload` unless a processed photo is present and the status is SUCCESS. */
  function RedirectsToUpload(p: PageState): (b: bool)
    ensures !b <==> p.hasProcessedPhoto && p.isSuccess
  {
    !p.hasProcessedPhoto || !p.isSuccess
  }

  /** Nothing is rendered without a processed photo. */
  function RendersContent(p: PageState): (b: bool)
    ensures b <==> p.hasProcessedPhoto
  {
    p.hasProcessedPhoto
  }

  /** The page stays and shows the photo only in the one good case. */
  lemma StaysOnlyWhenShowing(p: PageState)
    ensures !RedirectsToUpload(p) ==> RendersContent(p)
  {
  }
}
