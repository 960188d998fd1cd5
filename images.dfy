/**
 * Image naming and image serving: `calculateImageHash` and the decision
 * `getImg` makes. The file system is a map from path to contents (a path
 * that is absent cannot be read), the set of paths for which `os.Stat`
 * succeeds, and SHA-256 is a function parameter that yields 32 bytes.
 */
module Images {
  import opened Wrappers
  import opened Text
  import opened Hex
  import opened Api

  const ImgDir: string := "images"
  const DefaultImage: string := "images/default.jpg"
  const NotJpgMessage: string := "Image path does not end with .jpg"

  /** A SHA-256 digest. */
  type Digest = s: seq<byte> | |s| == 32 witness seq(32, _ => 0 as byte)

  /** `os.ReadFile` with its error dropped: an unreadable path reads as no bytes. */
  function ReadFileOrEmpty(fs: map<string, seq<byte>>, path: string): (data: seq<byte>) {
    if path in fs then fs[path] else []
  }

  /**
   * `calculateImageHash(filePath)`: the lower-case hex SHA-256 of the file's
   * contents followed by ".jpeg". It never reports an error.
   */
  function CalculateImageHash(fs: map<string, seq<byte>>, sum256: seq<byte> -> Digest, filePath: string): (name: string)
    ensures |name| == 69
    ensures name[64..] == ".jpeg"
    ensures forall i :: 0 <= i < 64 ==> name[i] in HexTable
    ensures DecodeString(name[..64]) == Some(sum256(ReadFileOrEmpty(fs, filePath)))
  {
    var digest := sum256(ReadFileOrEmpty(fs, filePath));
    var name := EncodeToString(digest) + ".jpeg";
    EncodeDigits(digest);
    DecodeEncode(digest);
    assert name[..64] == EncodeToString(digest);
    name
  }

  /** Two names are equal exactly when the two digests are. */
  lemma HashNameInjective(fs1: map<string, seq<byte>>, p1: string,
                          fs2: map<string, seq<byte>>, p2: string, sum256: seq<byte> -> Digest)
    ensures CalculateImageHash(fs1, sum256, p1) == CalculateImageHash(fs2, sum256, p2)
        <==> sum256(ReadFileOrEmpty(fs1, p1)) == sum256(ReadFileOrEmpty(fs2, p2))
  {
  }

  /** A path that cannot be read is named after the digest of no bytes. */
  lemma UnreadablePathHashesEmpty(fs: map<string, seq<byte>>, sum256: seq<byte> -> Digest, filePath: string)
    requires filePath !in fs
    ensures DecodeString(CalculateImageHash(fs, sum256, filePath)[..64]) == Some(sum256([]))
  {
  }

  /**
   * `path.Join(ImgDir, name)` for a name without '/' (a route parameter never
   * holds one): "." and ".." are cleaned away, the empty name adds nothing.
   */
  function JoinImageDir(name: string): (imgPath: string)
    requires '/' !in name
  {
    if name == "" || name == "." then ImgDir
    else if name == ".." then "."
    else ImgDir + "/" + name
  }

  /** Joining leaves the ".jpg" test to the name alone. */
  lemma JoinKeepsJpgSuffix(name: string)
    requires '/' !in name
    ensures HasSuffix(JoinImageDir(name), ".jpg") <==> HasSuffix(name, ".jpg")
  {
    var p := JoinImageDir(name);
    if name !in {"", ".", ".."} {
      if |name| >= 4 {
        assert p[|p| - 4..] == name[|name| - 4..];
      } else {
        assert p[|p| - 4] == "images/"[|name| + 3];
      }
    }
  }

  /**
   * The reply of `getImg` for the route parameter `name`, with `existing` the
   * paths `os.Stat` succeeds on.
   */
  function GetImg(name: string, existing: set<string>): (r: Response)
    requires '/' !in name
    ensures r.Json? <==> !HasSuffix(name, ".jpg")
    ensures r.Json? ==> r == Json(StatusBadRequest, Message(NotJpgMessage))
    ensures !r.Text?
    ensures r.File? ==> r.path == if ImgDir + "/" + name in existing then ImgDir + "/" + name else DefaultImage
  {
    var imgPath := JoinImageDir(name);
    JoinKeepsJpgSuffix(name);
    if !HasSuffix(imgPath, ".jpg") then Json(StatusBadRequest, Message(NotJpgMessage))
    else if imgPath !in existing then File(JoinImageDir("default.jpg"))
    else File(imgPath)
  }

  /** A served file always lies directly in the image directory. */
  lemma ServedFromImageDir(name: string, existing: set<string>)
    requires '/' !in name
    ensures GetImg(name, existing).File? ==>
      var path := GetImg(name, existing).path;
      |path| > |ImgDir| + 1 && path[..|ImgDir| + 1] == ImgDir + "/" && '/' !in path[|ImgDir| + 1..]
  {
  }

  /**
   * Every name `calculateImageHash` produces ends in ".jpeg", so `getImg`
   * rejects it with 400 whatever the image directory holds.
   */
  lemma HashedNameRejected(fs: map<string, seq<byte>>, sum256: seq<byte> -> Digest, filePath: string,
                           existing: set<string>)
    ensures var name := CalculateImageHash(fs, sum256, filePath);
      '/' !in name && GetImg(name, existing) == Json(StatusBadRequest, Message(NotJpgMessage))
  {
    var name := CalculateImageHash(fs, sum256, filePath);
    assert '/' !in name by {
      forall i | 0 <= i < |name| ensures name[i] != '/' {
        if i >= 64 {
          assert name[i] == ".jpeg"[i - 64];
        }
      }
    }
    assert name[|name| - 4..] == "jpeg";
  }
}
