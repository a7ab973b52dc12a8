/** The Qt image panel (editor/image_panel.py): the list of images of the open image's
    folder, the position in that list, the open path and whether an image object is held,
    under opening, next/previous, closing, save and save-as. The folder listing (already in
    creation-time order), whether a file opens as an image, and the values of the metadata
    panel are given as parameters; saving goes through the editing engine
    (ExifEditorService.SaveExifAndRename), whose file-system effects are returned. */
module ImagePanel {
  import opened Common
  import opened PosixPath
  import opened ExifData
  import opened ExifEditorService

  /** The extensions shown in the panel. */
  const ExtensionsList: seq<string> := [".jpg", ".jpeg", ".png", ".gif"]

  /** `os.path.splitext(f)[1].lower() in EXTENSIONS_LIST`. */
  predicate IsImageFile(f: string)
  {
    Lower(Splitext(f).1) in ExtensionsList
  }

  /** The paths of the image files among `names`, in their order, joined to `folder`. */
  function ImagesIn(folder: string, names: seq<string>): (r: seq<string>)
    ensures |r| <= |names|
    ensures forall k :: 0 <= k < |r| ==> r[k] != []
    decreases |names|
  {
    if names == [] then []
    else
      var rest := ImagesIn(folder, names[1..]);
      if IsImageFile(names[0]) then
        ImageFileNotEmpty(names[0]);
        [PosixPath.Join(folder, names[0])] + rest
      else rest
  }

  /** An image file name has an extension, so it is not empty, and neither is its path. */
  lemma ImageFileNotEmpty(f: string)
    requires IsImageFile(f)
    ensures f != [] && forall folder :: PosixPath.Join(folder, f) != []
  {
    assert Splitext(f).1 != [];
  }

  /** The image file at position k of the listing, joined to the folder, is `p`. */
  predicate ListedAt(folder: string, names: seq<string>, k: int, p: string)
    requires 0 <= k < |names|
  {
    IsImageFile(names[k]) && PosixPath.Join(folder, names[k]) == p
  }

  /** Every path of the listing comes from an image file of it. */
  lemma {:induction false} ImagesInSound(folder: string, names: seq<string>, p: string)
    requires p in ImagesIn(folder, names)
    ensures exists k :: 0 <= k < |names| && ListedAt(folder, names, k, p)
    decreases |names|
  {
    if IsImageFile(names[0]) && PosixPath.Join(folder, names[0]) == p {
      assert ListedAt(folder, names, 0, p);
    } else {
      ImagesInSound(folder, names[1..], p);
      var k :| 0 <= k < |names[1..]| && ListedAt(folder, names[1..], k, p);
      assert names[k + 1] == names[1..][k];
      assert ListedAt(folder, names, k + 1, p);
    }
  }

  /** Every image file of the listing is listed, joined to the folder. */
  lemma {:induction false} ImagesInComplete(folder: string, names: seq<string>, k: int)
    requires 0 <= k < |names| && IsImageFile(names[k])
    ensures PosixPath.Join(folder, names[k]) in ImagesIn(folder, names)
    decreases |names|
  {
    var rest := ImagesIn(folder, names[1..]);
    if k == 0 {
      assert ImagesIn(folder, names) == [PosixPath.Join(folder, names[0])] + rest;
    } else {
      assert names[1..][k - 1] == names[k];
      ImagesInComplete(folder, names[1..], k - 1);
      assert ImagesIn(folder, names) == rest || ImagesIn(folder, names)[1..] == rest;
    }
  }

  /** A path is listed exactly when it is the joined path of an image file of the listing. */
  lemma ImagesInMembers(folder: string, names: seq<string>, p: string)
    ensures p in ImagesIn(folder, names) <==> exists k :: 0 <= k < |names| && ListedAt(folder, names, k, p)
  {
    if p in ImagesIn(folder, names) {
      ImagesInSound(folder, names, p);
    }
    if exists k :: 0 <= k < |names| && ListedAt(folder, names, k, p) {
      var k :| 0 <= k < |names| && ListedAt(folder, names, k, p);
      ImagesInComplete(folder, names, k);
    }
  }

  /** `list.index(x)`: the first position of `x`. */
  function IndexOf(xs: seq<string>, x: string): (i: nat)
    requires x in xs
    ensures i < |xs| && xs[i] == x
    ensures forall j :: 0 <= j < i ==> xs[j] != x
  {
    if xs[0] == x then 0 else 1 + IndexOf(xs[1..], x)
  }

  /** `(i + 1) % n`; Python's % and Dafny's agree for a positive divisor. */
  function NextIndex(i: int, n: nat): (r: int)
    requires n > 0
    ensures 0 <= r < n
  {
    (i + 1) % n
  }

  /** `(i - 1) % n`: from 0 it wraps to n - 1. */
  function PrevIndex(i: int, n: nat): (r: int)
    requires n > 0
    ensures 0 <= r < n
  {
    (i - 1) % n
  }

  /** Going back from the first image shows the last one. */
  lemma PrevWraps(n: nat)
    requires n > 0
    ensures PrevIndex(0, n) == n - 1
  {
    ModMinusOne(n);
  }

  lemma ModSmall(i: int, n: int)
    requires 0 <= i < n
    ensures i % n == i
  {
  }

  lemma ModSelf(n: int)
    requires n > 0
    ensures n % n == 0
  {
  }

  lemma ModMinusOne(n: int)
    requires n > 0
    ensures (-1) % n == n - 1
  {
  }

  lemma IndexNextThenPrev(i: int, n: nat)
    requires 0 <= i < n
    ensures PrevIndex(NextIndex(i, n), n) == i
  {
    if i == n - 1 {
      ModSelf(n);
      assert NextIndex(i, n) == 0;
      ModMinusOne(n);
    } else {
      ModSmall(i + 1, n);
      assert NextIndex(i, n) == i + 1;
      ModSmall(i, n);
    }
  }

  lemma IndexPrevThenNext(i: int, n: nat)
    requires 0 <= i < n
    ensures NextIndex(PrevIndex(i, n), n) == i
  {
    if i == 0 {
      ModMinusOne(n);
      assert PrevIndex(i, n) == n - 1;
      ModSelf(n);
    } else {
      ModSmall(i - 1, n);
      assert PrevIndex(i, n) == i - 1;
      ModSmall(i, n);
    }
  }

  /** Previous undoes next, and next undoes previous, on an index of the list. */
  lemma PrevUndoesNext(i: int, n: nat)
    requires 0 <= i < n
    ensures PrevIndex(NextIndex(i, n), n) == i
    ensures NextIndex(PrevIndex(i, n), n) == i
  {
    IndexNextThenPrev(i, n);
    IndexPrevThenNext(i, n);
  }

  /** The file name the save-as dialog proposes: the base name with "-copy" before its
      extension. */
  function CopyName(imagePath: string): (r: string)
    ensures var parts := Splitext(Basename(imagePath)); r == parts.0 + "-copy" + parts.1
  {
    var parts := Splitext(Basename(imagePath));
    parts.0 + "-copy" + parts.1
  }

  /** The name the panel passes to the engine: `vals.get("nom", "")`. */
  function NameOf(vals: map<string, string>): string
  {
    ParseName(Some(Lookup(vals, "nom")))
  }

  /** The engine accepts the panel's values: the date and both coordinates parse. */
  predicate ValuesParse(vals: map<string, string>)
  {
    && ParseDateToExif(Lookup(vals, "date_creation")).Some?
    && ParseCoordinate(Lookup(vals, "latitude")).Some?
    && ParseCoordinate(Lookup(vals, "longitude")).Some?
  }

  /** The Exif dictionary the engine writes for the panel's values. */
  function EditsOf(loaded: Option<ExifMap>, vals: map<string, string>): ExifMap
    requires LoadedOk(loaded)
  {
    Edited(loaded, ParseDateToExif(Lookup(vals, "date_creation")), ParseCoordinate(Lookup(vals, "latitude")),
           ParseCoordinate(Lookup(vals, "longitude")))
  }

  /** What the engine does to the file system: insert the edits at `path`, then rename
      when the final path differs. */
  function SaveEffects(loaded: Option<ExifMap>, path: string, vals: map<string, string>,
                       finalPath: string): (r: seq<Effect>)
    requires LoadedOk(loaded)
  {
    [InsertExif(path, EditsOf(loaded, vals))] + RenameEffects(path, finalPath)
  }

  /** save_exif_and_rename on an image object and a path, with the values looked up in the
      panel's dictionary (a missing key is ""). */
  method SaveValues(loaded: Option<ExifMap>, path: string, vals: map<string, string>,
                    newPath: Option<string>, isAlnum: char -> bool)
    returns (r: SaveResult)
    requires LoadedOk(loaded) && path != []
    ensures r.Saved? <==> ValuesParse(vals)
    ensures r.Saved? ==>
      && r.finalPath == FinalPathAsWritten(newPath, NameOf(vals), path, isAlnum)
      && r.effects == SaveEffects(loaded, path, vals, r.finalPath)
  {
    r := SaveExifAndRename(true, loaded, path, Some(Lookup(vals, "nom")),
                           Lookup(vals, "date_creation"), Lookup(vals, "latitude"),
                           Lookup(vals, "longitude"), newPath, isAlnum);
  }

  /** Saving with the current path as the new path writes the tags and renames nothing. */
  lemma SavedInPlace(loaded: Option<ExifMap>, path: string, vals: map<string, string>,
                     isAlnum: char -> bool)
    requires LoadedOk(loaded) && path != []
    ensures FinalPathAsWritten(Some(path), NameOf(vals), path, isAlnum) == path
    ensures SaveEffects(loaded, path, vals, path) == [InsertExif(path, EditsOf(loaded, vals))]
  {
    assert RenameEffects(path, path) == [];
  }

  /** The body of save_as once its guards pass: copy the file, then save into the copy
      with the copy as the new path, so that nothing is renamed. */
  method CopyAndSave(source: string, chosen: string, vals: map<string, string>,
                     loaded: Option<ExifMap>, isAlnum: char -> bool)
    returns (effects: seq<Effect>)
    requires LoadedOk(loaded) && chosen != []
    ensures ValuesParse(vals) ==> effects == [Copy(source, chosen), InsertExif(chosen, EditsOf(loaded, vals))]
    ensures !ValuesParse(vals) ==> effects == [Copy(source, chosen)]
  {
    var result := SaveValues(loaded, chosen, vals, Some(chosen), isAlnum);
    if result.Saved? {
      SavedInPlace(loaded, chosen, vals, isAlnum);
      effects := [Copy(source, chosen)] + result.effects;
    } else {
      effects := [Copy(source, chosen)];
    }
  }

  class ImagePanel {
    var imageList: seq<string>
    var currentIndex: int
    var imagePath: Option<string>
    var hasImage: bool

    /** The index is a position or -1, and every listed path is a path. */
    predicate Valid()
      reads this
    {
      && currentIndex >= -1
      && forall k :: 0 <= k < |imageList| ==> imageList[k] != []
    }

    /** No list, no position, no path, no image. */
    predicate Closed()
      reads this
    {
      imageList == [] && currentIndex == -1 && imagePath.None? && !hasImage
    }

    constructor ()
      ensures Valid() && Closed()
    {
      imageList := [];
      currentIndex := -1;
      imagePath := None;
      hasImage := false;
    }

    /** load_image: with a path, the image is opened when the file opens as one; a file
        that does not open leaves the panel as it was. */
    method LoadImage(opens: bool)
      requires Valid()
      modifies this
      ensures Valid()
      ensures imageList == old(imageList) && currentIndex == old(currentIndex)
      ensures imagePath == old(imagePath)
      ensures hasImage == (old(hasImage) || (imagePath.Some? && imagePath.value != [] && opens))
    {
      if imagePath.None? || imagePath.value == [] {
        return;
      }
      if opens {
        hasImage := true;
      }
    }

    /** _build_image_list_from_path: the list is the image files of the folder of
        `imagePath`, and the index is the position of `imagePath` in it. When the path is
        not in the list, list.index raises: the new list stays, the index does not move,
        and `raised` is set. */
    method BuildImageListFromPath(path: string, listing: seq<string>) returns (raised: bool)
      requires Valid()
      modifies this
      ensures Valid()
      ensures imageList == ImagesIn(Dirname(path), listing)
      ensures raised <==> path !in imageList
      ensures !raised ==> currentIndex == IndexOf(imageList, path) && imageList[currentIndex] == path
      ensures raised ==> currentIndex == old(currentIndex)
      ensures imagePath == old(imagePath) && hasImage == old(hasImage)
    {
      var images := ImagesIn(Dirname(path), listing);
      imageList := images;
      if path !in images {
        return true;
      }
      currentIndex := IndexOf(images, path);
      return false;
    }

    /** load_from_path: the path becomes the open path, the folder is listed, and the image
        is loaded unless listing raised. */
    method LoadFromPath(path: string, listing: seq<string>, opens: bool) returns (raised: bool)
      requires Valid()
      modifies this
      ensures Valid()
      ensures imagePath == Some(path)
      ensures imageList == ImagesIn(Dirname(path), listing)
      ensures raised <==> path !in imageList
      ensures !raised ==> 0 <= currentIndex < |imageList| && imageList[currentIndex] == path
      ensures !raised ==> hasImage == (old(hasImage) || opens)
      ensures raised ==> currentIndex == old(currentIndex) && hasImage == old(hasImage)
    {
      imagePath := Some(path);
      raised := BuildImageListFromPath(path, listing);
      if !raised {
        LoadImage(opens);
      }
    }

    /** next_image: nothing without a list or a position; otherwise one step forward,
        round to the first image after the last, and that image is loaded. */
    method NextImage(opens: bool)
      requires Valid()
      modifies this
      ensures Valid()
      ensures imageList == old(imageList)
      ensures old(imageList) == [] || old(currentIndex) < 0 ==>
        currentIndex == old(currentIndex) && imagePath == old(imagePath) && hasImage == old(hasImage)
      ensures old(imageList) != [] && old(currentIndex) >= 0 ==>
        && currentIndex == NextIndex(old(currentIndex), |imageList|)
        && 0 <= currentIndex < |imageList|
        && imagePath == Some(imageList[currentIndex])
        && hasImage == (old(hasImage) || opens)
    {
      if imageList == [] || currentIndex < 0 {
        return;
      }
      currentIndex := NextIndex(currentIndex, |imageList|);
      imagePath := Some(imageList[currentIndex]);
      LoadImage(opens);
    }

    /** prev_image: one step back, round to the last image before the first. */
    method PrevImage(opens: bool)
      requires Valid()
      modifies this
      ensures Valid()
      ensures imageList == old(imageList)
      ensures old(imageList) == [] || old(currentIndex) < 0 ==>
        currentIndex == old(currentIndex) && imagePath == old(imagePath) && hasImage == old(hasImage)
      ensures old(imageList) != [] && old(currentIndex) >= 0 ==>
        && currentIndex == PrevIndex(old(currentIndex), |imageList|)
        && 0 <= currentIndex < |imageList|
        && imagePath == Some(imageList[currentIndex])
        && hasImage == (old(hasImage) || opens)
    {
      if imageList == [] || currentIndex < 0 {
        return;
      }
      currentIndex := PrevIndex(currentIndex, |imageList|);
      imagePath := Some(imageList[currentIndex]);
      LoadImage(opens);
    }

    /** Next then previous comes back to the same image. */
    method NextThenPrev(opens: bool)
      requires Valid()
      requires 0 <= currentIndex < |imageList|
      modifies this
      ensures Valid()
      ensures imageList == old(imageList) && currentIndex == old(currentIndex)
      ensures imagePath == Some(imageList[currentIndex])
    {
      NextImage(opens);
      PrevImage(opens);
      PrevUndoesNext(old(currentIndex), |imageList|);
    }

    /** close_image: back to the initial state. */
    method CloseImage()
      modifies this
      ensures Valid() && Closed()
    {
      imageList := [];
      currentIndex := -1;
      imagePath := None;
      hasImage := false;
    }

    /** After a rename the new path is the open path, and it replaces the current slot of
        the list when the index is a position of the list. */
    method Renamed(finalPath: string)
      requires Valid() && finalPath != []
      modifies this
      ensures Valid()
      ensures imagePath == Some(finalPath)
      ensures imageList == (if 0 <= old(currentIndex) < |old(imageList)|
                            then old(imageList)[old(currentIndex) := finalPath]
                            else old(imageList))
      ensures currentIndex == old(currentIndex) && hasImage == old(hasImage)
    {
      imagePath := Some(finalPath);
      if 0 <= currentIndex < |imageList| {
        imageList := imageList[currentIndex := finalPath];
      }
    }

    /** save: nothing without a path, an image and a source of values. Otherwise the
        engine saves in place, renaming by the typed name; when it refuses nothing changes.
        When the final path differs, it becomes the open path and replaces the current
        slot of the list, if the index is a position. The image is loaded again. */
    method Save(values: Option<map<string, string>>, loaded: Option<ExifMap>, opens: bool,
                isAlnum: char -> bool)
      returns (result: SaveResult)
      requires Valid() && LoadedOk(loaded)
      modifies this
      ensures Valid()
      ensures currentIndex == old(currentIndex) && hasImage == old(hasImage)
      ensures old(imagePath).None? || old(imagePath).value == [] || !old(hasImage) || values.None? ==>
        result == NotSaved && imageList == old(imageList) && imagePath == old(imagePath)
      ensures old(imagePath).Some? && old(imagePath).value != [] && old(hasImage) && values.Some? ==>
        && (result.Saved? <==> ValuesParse(values.value))
        && (result.Saved? ==>
              result.finalPath == FinalPathAsWritten(None, NameOf(values.value), old(imagePath).value, isAlnum))
      ensures !result.Saved? || result.finalPath == [] || Some(result.finalPath) == old(imagePath) ==>
        imageList == old(imageList) && imagePath == old(imagePath)
      ensures result.Saved? && result.finalPath != [] && Some(result.finalPath) != old(imagePath) ==>
        && imagePath == Some(result.finalPath)
        && imageList == (if 0 <= old(currentIndex) < |old(imageList)|
                         then old(imageList)[old(currentIndex) := result.finalPath]
                         else old(imageList))
    {
      if imagePath.None? || imagePath.value == [] || !hasImage || values.None? {
        return NotSaved;
      }
      var path := imagePath.value;
      result := SaveValues(loaded, path, values.value, None, isAlnum);
      if !result.Saved? {
        return;
      }
      if result.finalPath != [] && result.finalPath != path {
        Renamed(result.finalPath);
      }
      LoadImage(opens);
    }

    /** save_as: nothing without a path, an image, a source of values and a chosen target.
        Otherwise the file is copied to the target and the engine saves into the copy, with
        the copy as both the current and the new path: the copy is never renamed and the
        original file is only read. The panel's state does not change. */
    method SaveAs(values: Option<map<string, string>>, chosen: string, loaded: Option<ExifMap>,
                  isAlnum: char -> bool)
      returns (effects: seq<Effect>)
      requires LoadedOk(loaded)
      ensures imagePath.None? || imagePath.value == [] || !hasImage || values.None? || chosen == [] ==>
        effects == []
      ensures imagePath.Some? && imagePath.value != [] && hasImage && values.Some? && chosen != [] ==>
        && ValuesParse(values.value) ==>
             effects == [Copy(imagePath.value, chosen), InsertExif(chosen, EditsOf(loaded, values.value))]
      ensures imagePath.Some? && imagePath.value != [] && hasImage && values.Some? && chosen != [] ==>
        && !ValuesParse(values.value) ==> effects == [Copy(imagePath.value, chosen)]
    {
      if imagePath.None? || imagePath.value == [] || !hasImage || values.None? || chosen == [] {
        return [];
      }
      effects := CopyAndSave(imagePath.value, chosen, values.value, loaded, isAlnum);
    }
  }
}
