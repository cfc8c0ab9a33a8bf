/** The photo strip of the gym screen: a private list of picture URIs. */
module Photos {
  import opened MutableLists

  /** A content URI, compared only for equality. */
  type Uri = string

  class PhotoAdapter {
    var photos: seq<Uri>

    constructor()
      ensures photos == []
    {
      photos := [];
    }

    /** The number of rows shown: one per photo. */
    function GetItemCount(): (n: nat)
      reads this
      ensures n == |photos|
    {
      |photos|
    }

    /** Replaces the photos by `photoUris`, in order. */
    method SetPhotos(photoUris: seq<Uri>)
      modifies this
      ensures photos == photoUris
    {
      photos := [];
      photos := photos + photoUris;
    }

    /** Appends `photoUris` in order; `start` is the first row reported as inserted. */
    method AddPhotos(photoUris: seq<Uri>) returns (start: nat)
      modifies this
      ensures photos == old(photos) + photoUris
      ensures start == old(GetItemCount()) && GetItemCount() == start + |photoUris|
      ensures photos[start..] == photoUris
    {
      start := |photos|;
      photos := photos + photoUris;
    }

    /** Removes the photo at `position` when that is an index; otherwise nothing happens. */
    method RemovePhoto(position: int)
      modifies this
      ensures photos == RemoveInRange(old(photos), position)
    {
      if 0 <= position < |photos| {
        photos := photos[..position] + photos[position + 1..];
      }
    }
  }
}
