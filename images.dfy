/**
 * The `imagens` column: image paths stored as one comma-separated text
 * (`set_imagens` / `get_imagens`, models.py:206-222) and the admin's removal
 * of one file name from it (`delete_vehicle_image`, admin.py:797-825).
 */
module Images {
  import opened Common
  import opened Text

  /** A path that `get_imagens` hands back unchanged: non-empty, stripped, comma-free. */
  predicate CleanPath(p: string)
  {
    Stripped(p) && ',' !in p
  }

  /** `','.join(imagens_list) if imagens_list else ''`. */
  function EncodeImages(paths: seq<string>): string
  {
    if |paths| == 0 then "" else Join(paths, ',')
  }

  /** Every path in the list is clean. */
  predicate AllClean(paths: seq<string>)
  {
    forall k :: 0 <= k < |paths| ==> CleanPath(paths[k])
  }

  /** `strip()` of a comma-free piece is empty or a clean path. */
  lemma StripPiece(piece: string)
    requires ',' !in piece
    ensures Strip(piece) == "" || CleanPath(Strip(piece))
  {
    StripFacts(piece);
  }

  /** `[path.strip() for path in parts if path.strip()]`. */
  function KeepStripped(parts: seq<string>): (paths: seq<string>)
    requires SeparatorFree(parts, ',')
    ensures |paths| <= |parts|
    ensures AllClean(paths)
  {
    if parts == [] then []
    else
      var p := Strip(parts[0]);
      var tail := KeepStripped(parts[1..]);
      StripPiece(parts[0]);
      if p != "" then [p] + tail else tail
  }

  /**
   * `get_imagens`: no paths for a NULL or empty column; otherwise the
   * stripped, non-empty pieces between the commas.
   */
  function DecodeImages(stored: Option<string>): (paths: seq<string>)
    ensures AllClean(paths)
    ensures stored.None? || stored == Some("") ==> paths == []
  {
    if stored.None? || stored.value == "" then []
    else KeepStripped(Split(stored.value, ','))
  }

  lemma AllCleanSeparatorFree(paths: seq<string>)
    requires AllClean(paths)
    ensures SeparatorFree(paths, ',')
  {
    forall k | 0 <= k < |paths| ensures ',' !in paths[k] {
      assert CleanPath(paths[k]);
    }
  }

  lemma {:induction false} KeepStrippedClean(paths: seq<string>)
    requires AllClean(paths)
    ensures SeparatorFree(paths, ',') && KeepStripped(paths) == paths
  {
    AllCleanSeparatorFree(paths);
    if paths != [] {
      assert CleanPath(paths[0]);
      StripStripped(paths[0]);
      KeepStrippedClean(paths[1..]);
      assert paths == [paths[0]] + paths[1..];
    }
  }

  /**
   * Storing clean paths and reading them back gives the same list, in the
   * same order; in particular the empty list is stored as "" and read back
   * as the empty list.
   */
  lemma DecodeEncode(paths: seq<string>)
    requires AllClean(paths)
    ensures DecodeImages(Some(EncodeImages(paths))) == paths
  {
    if |paths| > 0 {
      var s := Join(paths, ',');
      AllCleanSeparatorFree(paths);
      SplitJoin(paths, ',');
      assert CleanPath(paths[0]);
      assert s != "";
      KeepStrippedClean(paths);
    }
  }

  /** Whatever is stored, re-storing what `get_imagens` read is a fixed point. */
  lemma EncodeDecodeStable(stored: Option<string>)
    ensures DecodeImages(Some(EncodeImages(DecodeImages(stored)))) == DecodeImages(stored)
  {
    DecodeEncode(DecodeImages(stored));
  }

  /** The position of the first occurrence of `x`. */
  function IndexOf(parts: seq<string>, x: string): (i: nat)
    requires x in parts
    ensures i < |parts| && parts[i] == x && x !in parts[..i]
  {
    if parts[0] == x then 0
    else
      assert parts[1..][..IndexOf(parts[1..], x)] == parts[1..1 + IndexOf(parts[1..], x)];
      1 + IndexOf(parts[1..], x)
  }

  /** `parts.remove(x)`: drop the first occurrence of `x`, keeping the order of the rest. */
  function RemoveFirst(parts: seq<string>, x: string): (rest: seq<string>)
    requires x in parts
    ensures |rest| == |parts| - 1
    ensures multiset(rest) == multiset(parts) - multiset{x}
  {
    var i := IndexOf(parts, x);
    assert parts == parts[..i] + [x] + parts[i + 1..];
    parts[..i] + parts[i + 1..]
  }

  datatype RemoveImageResult =
    | NoImages                                  // "Nenhuma imagem para apagar!"
    | ImageNotFound                             // "Imagem não encontrada."
    | ImageRemoved(stored: Option<string>)      // the new value of the column

  /**
   * `delete_vehicle_image` on the column value: the raw comma pieces (not
   * stripped) are searched for `filename`; the column becomes NULL once no
   * piece is left.
   */
  function RemoveImage(stored: Option<string>, filename: string): RemoveImageResult
  {
    if stored.None? || stored.value == "" then NoImages
    else
      var parts := Split(stored.value, ',');
      if filename !in parts then ImageNotFound
      else
        var rest := RemoveFirst(parts, filename);
        ImageRemoved(if rest == [] then None else Some(Join(rest, ',')))
  }

  /**
   * A removal deletes exactly one occurrence of the file name from the comma
   * list and keeps the other pieces in order; a name that is not one of the
   * pieces (a name containing a comma, say) is reported as not found.
   */
  lemma RemoveImageEffect(stored: Option<string>, filename: string)
    ensures ',' in filename && RemoveImage(stored, filename) != NoImages ==>
              RemoveImage(stored, filename) == ImageNotFound
    ensures RemoveImage(stored, filename).ImageRemoved? ==>
              var parts := Split(stored.value, ',');
              var after := RemoveImage(stored, filename).stored;
              && filename in parts
              && (after.None? <==> parts == [filename])
              && (after.Some? ==> Split(after.value, ',') == RemoveFirst(parts, filename))
  {
    if RemoveImage(stored, filename).ImageRemoved? {
      var parts := Split(stored.value, ',');
      var rest := RemoveFirst(parts, filename);
      if rest == [] {
        assert |parts| == 1;
        assert parts == [filename];
      } else {
        assert SeparatorFree(rest, ',') by {
          forall k | 0 <= k < |rest| ensures ',' !in rest[k] {
            assert rest[k] in multiset(rest);
            assert rest[k] in parts;
          }
        }
        SplitJoin(rest, ',');
      }
    }
  }
}
