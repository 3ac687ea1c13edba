/**
 The HLS sliding-window playlist and the sink context that drives it: segments are appended, the
 window is trimmed on every write, and old segment files are deleted afterwards.
 */
module HlsPlaylist {
  import opened Prelude

  datatype Segment = Segment(uri: string, initMap: Option<string>)

  datatype PlaylistType = Event | Vod

  /** The init map in force for segment `i`: the nearest one at or before it. */
  function InForce(segments: seq<Segment>, i: nat): Option<string>
    requires i < |segments|
  {
    if segments[i].initMap.Some? || i == 0 then segments[i].initMap else InForce(segments, i - 1)
  }

  /** Before segment `i` and at it, the map in force is the last one given. */
  lemma {:induction false} InForceIsNearest(segments: seq<Segment>, i: nat)
    requires i < |segments|
    ensures InForce(segments, i) == None <==> forall h :: 0 <= h <= i ==> segments[h].initMap == None
    ensures InForce(segments, i).Some? ==>
              exists h :: 0 <= h <= i && segments[h].initMap == InForce(segments, i)
                          && forall m :: h < m <= i ==> segments[m].initMap == None
  {
    if segments[i].initMap == None && i > 0 { InForceIsNearest(segments, i - 1); }
  }

  /** The window that starts at segment `k` of the full history. CMAF windows carry the map in force along. */
  function Window(history: seq<Segment>, k: nat, isCmaf: bool): (w: seq<Segment>)
    requires k <= |history|
    ensures |w| == |history| - k
  {
    if k == |history| then []
    else if isCmaf then [history[k].(initMap := InForce(history, k))] + history[k + 1..]
    else history[k..]
  }

  lemma WindowAppend(history: seq<Segment>, k: nat, isCmaf: bool, s: Segment)
    requires k < |history| || k == 0
    ensures Window(history + [s], k, isCmaf) == Window(history, k, isCmaf) + [s]
  {
    if k < |history| { InForcePrefix(history, [s], k); }
  }

  lemma {:induction false} InForcePrefix(a: seq<Segment>, b: seq<Segment>, i: nat)
    requires i < |a|
    ensures InForce(a + b, i) == InForce(a, i)
  {
    if i > 0 { InForcePrefix(a, b, i - 1); }
  }

  /** Removing the front segment of a CMAF window and patching the next one moves the window by one. */
  lemma WindowStep(history: seq<Segment>, k: nat)
    requires k + 1 < |history|
    ensures var w := Window(history, k, true);
            var next := if w[1].initMap.Some? then w[1] else w[1].(initMap := w[0].initMap);
            [next] + w[2..] == Window(history, k + 1, true)
  {
  }

  lemma WindowUri(history: seq<Segment>, k: nat, isCmaf: bool, i: nat)
    requires k + i < |history|
    ensures Window(history, k, isCmaf)[i].uri == history[k + i].uri
  {
  }

  /** Trimming preserves meaning: the map in force for each retained segment is the one in the full history. */
  lemma {:induction false} WindowInForce(history: seq<Segment>, k: nat, isCmaf: bool, i: nat)
    requires k + i < |history|
    requires isCmaf || forall h :: 0 <= h < |history| ==> history[h].initMap == None
    ensures InForce(Window(history, k, isCmaf), i) == InForce(history, k + i)
  {
    if !isCmaf {
      NoMaps(history, k + i);
      NoMaps(Window(history, k, isCmaf), i);
    } else if i > 0 {
      WindowInForce(history, k, isCmaf, i - 1);
    }
  }

  lemma ListedAs(history: seq<Segment>, k: nat, isCmaf: bool, w: seq<Segment>, i: nat)
    requires k <= |history| && w == Window(history, k, isCmaf) && i < |w|
    requires isCmaf || forall h :: 0 <= h < |history| ==> history[h].initMap == None
    ensures w[i].uri == history[k + i].uri && InForce(w, i) == InForce(history, k + i)
  {
    WindowUri(history, k, isCmaf, i);
    WindowInForce(history, k, isCmaf, i);
  }

  lemma {:induction false} NoMaps(s: seq<Segment>, i: nat)
    requires i < |s| && forall h :: 0 <= h < |s| ==> s[h].initMap == None
    ensures InForce(s, i) == None
  {
    if i > 0 { NoMaps(s, i - 1); }
  }

  /** The first segment still listed after `n` segments with a limit of `limit` (0: unlimited). */
  function ListedFrom(n: nat, limit: nat): nat {
    if limit == 0 then 0 else Max(0, n - limit)
  }

  class Playlist {
    const turnVod: bool
    const isCmaf: bool

    var segments: seq<Segment>
    var playlistIndex: nat
    var mediaSequence: nat
    var endList: bool
    var playlistType: Option<PlaylistType>
    var started: bool

    // All segments ever added, and the first one still listed
    ghost var history: seq<Segment>
    ghost var first: nat

    ghost predicate Valid()
      reads this
    {
      && first <= |history| && (first == |history| ==> first == 0)
      && segments == Window(history, first, isCmaf)
      && started == (history != [])
    }

    constructor (playlistType: Option<PlaylistType>, turnVod: bool, isCmaf: bool)
      ensures Valid() && history == [] && first == 0 && playlistIndex == 0 && mediaSequence == 0
      ensures this.playlistType == playlistType && this.turnVod == turnVod && this.isCmaf == isCmaf
    {
      this.turnVod, this.isCmaf := turnVod, isCmaf;
      segments, playlistIndex, mediaSequence, endList := [], 0, 0, false;
      this.playlistType, started := playlistType, false;
      history, first := [], 0;
    }

    method AddSegment(segment: Segment)
      requires Valid()
      modifies this`segments, this`started, this`endList, this`history
      ensures Valid() && history == old(history) + [segment] && !endList
    {
      WindowAppend(history, first, isCmaf, segment);
      started, endList := true, false;
      segments := segments + [segment];
      history := history + [segment];
    }

    /** Removes the oldest segments until `max` are left. */
    method Trim(max: nat)
      requires Valid() && max > 0
      modifies this`segments, this`first
      ensures Valid() && first == Max(old(first), |history| - max)
    {
      if isCmaf {
        while |segments| > max
          invariant Valid() && old(first) <= first && (old(first) < first ==> first <= |history| - max)
          decreases |segments|
        {
          RemoveFront();
        }
      } else if |segments| > max {
        var removeLen := |segments| - max;
        segments := segments[removeLen..];
        first := first + removeLen;
      }
    }

    /** Removes the oldest segment of a CMAF playlist; the next one inherits its init map. */
    method RemoveFront()
      requires Valid() && isCmaf && |segments| > 1
      modifies this`segments, this`first
      ensures Valid() && first == old(first) + 1
    {
      WindowStep(history, first);
      var removed := segments[0];
      segments := segments[1..];
      if segments[0].initMap == None {
        segments := segments[0 := segments[0].(initMap := removed.initMap)];
      }
      first := first + 1;
    }

    /** Called for every write. The subtraction must not underflow. */
    method UpdatePlaylistState(max: nat)
      requires Valid() && (playlistType == None ==> |history| <= playlistIndex + 1)
      modifies this`segments, this`first, this`playlistIndex, this`mediaSequence
      ensures Valid()
      ensures playlistType.Some? ==> unchanged(this)
      ensures playlistType == None ==>
                && first == (if max == 0 then old(first) else Max(old(first), |history| - max))
                && playlistIndex == old(playlistIndex) + 1
                && mediaSequence == playlistIndex - (|history| - first)
    {
      if playlistType.Some? {
        return;
      }
      if max > 0 {
        Trim(max);
      }
      playlistIndex := playlistIndex + 1;
      mediaSequence := playlistIndex - |segments|;
    }

    method Stop(writeEndlist: bool)
      requires Valid()
      modifies this`endList, this`playlistType
      ensures Valid() && endList == writeEndlist
      ensures playlistType == if turnVod then Some(Vod) else old(playlistType)
    {
      endList := writeEndlist;
      if turnVod {
        playlistType := Some(Vod);
      }
    }
  }

  /** The sink's state for one playlist. */
  class Context {
    const playlist: Playlist
    const playlistLength: nat
    const maxNumSegmentFiles: nat
    const singleMediaFile: bool

    var oldSegmentLocations: seq<string>

    // Location of every segment added, and how many of their files have been deleted
    ghost var locations: seq<string>
    ghost var deleted: nat

    // The playlist that was last written lists segments `writtenFrom..writtenTo`
    ghost var writtenFrom: nat
    ghost var writtenTo: nat

    predicate Deletes()
      reads playlist
    {
      playlist.playlistType == None && maxNumSegmentFiles > 0 && !singleMediaFile
    }

    ghost predicate FilesValid()
      reads this, playlist
    {
      && deleted <= |locations|
      && oldSegmentLocations == locations[deleted..]
      && (maxNumSegmentFiles == 0 || singleMediaFile ==> deleted == 0)
      && deleted <= Max(0, |locations| - maxNumSegmentFiles)
      && |locations| <= |playlist.history|
      && writtenFrom <= playlist.first && writtenTo <= |playlist.history|
      // a playlist on disk that is short enough names no deleted file
      && (0 < playlistLength <= maxNumSegmentFiles ==> deleted <= writtenFrom)
    }

    /** After every write caused by an added segment. */
    ghost predicate Valid()
      reads this, playlist
    {
      && playlist.Valid() && FilesValid()
      && (playlist.playlistType == None ==>
            && playlist.first == ListedFrom(|playlist.history|, playlistLength)
            && playlist.playlistIndex == |playlist.history|
            && playlist.mediaSequence == playlist.first
            && |locations| == |playlist.history|)
      && (playlist.playlistType.Some? ==> playlist.first == 0 && playlist.mediaSequence == 0 && locations == [])
    }

    constructor (playlist: Playlist, playlistLength: nat, maxNumSegmentFiles: nat, singleMediaFile: bool)
      requires playlist.Valid() && playlist.history == [] && playlist.playlistIndex == 0 && playlist.mediaSequence == 0
      ensures Valid() && this.playlist == playlist && this.singleMediaFile == singleMediaFile
      ensures this.playlistLength == playlistLength && this.maxNumSegmentFiles == maxNumSegmentFiles
    {
      this.playlist, this.playlistLength := playlist, playlistLength;
      this.maxNumSegmentFiles, this.singleMediaFile := maxNumSegmentFiles, singleMediaFile;
      oldSegmentLocations, locations, deleted := [], [], 0;
      writtenFrom, writtenTo := 0, 0;
    }

    /** Updates the playlist and, if it could be written, deletes files beyond the limit. */
    method WritePlaylist(written: bool)
      requires playlist.Valid() && FilesValid()
      requires playlist.playlistType == None ==> |playlist.history| <= playlist.playlistIndex + 1
      modifies this`oldSegmentLocations, this`deleted, this`writtenFrom, this`writtenTo,
               playlist`segments, playlist`first, playlist`playlistIndex, playlist`mediaSequence
      ensures playlist.Valid() && FilesValid()
      ensures playlist.playlistType.Some? ==>
                && playlist.first == old(playlist.first) && playlist.mediaSequence == old(playlist.mediaSequence)
                && playlist.segments == old(playlist.segments)
      ensures playlist.playlistType == None ==>
                && playlist.first == (if playlistLength == 0 then old(playlist.first)
                                      else Max(old(playlist.first), |playlist.history| - playlistLength))
                && playlist.playlistIndex == old(playlist.playlistIndex) + 1
                && playlist.mediaSequence == playlist.playlistIndex - (|playlist.history| - playlist.first)
      ensures deleted == if written && playlist.playlistType == None && maxNumSegmentFiles > 0 && !singleMediaFile
                         then Max(old(deleted), |locations| - maxNumSegmentFiles) else old(deleted)
      ensures if written then writtenFrom == playlist.first && writtenTo == |playlist.history|
              else writtenFrom == old(writtenFrom) && writtenTo == old(writtenTo)
    {
      playlist.UpdatePlaylistState(playlistLength);
      if !written {
        return;
      }
      AfterWrite();
    }

    /** What follows a successful write. */
    method AfterWrite()
      requires FilesValid()
      requires playlist.playlistType == None && playlistLength > 0 ==>
                 |playlist.history| - playlistLength <= playlist.first
      modifies this`oldSegmentLocations, this`deleted, this`writtenFrom, this`writtenTo
      ensures FilesValid() && writtenFrom == playlist.first && writtenTo == |playlist.history|
      ensures deleted == if playlist.playlistType == None && maxNumSegmentFiles > 0 && !singleMediaFile
                         then Max(old(deleted), |locations| - maxNumSegmentFiles) else old(deleted)
    {
      writtenFrom, writtenTo := playlist.first, |playlist.history|;
      if Deletes() {
        DeleteOldFiles();
      }
    }

    /** Deletes the oldest files until the limit is met. */
    method DeleteOldFiles()
      requires FilesValid() && maxNumSegmentFiles > 0 && !singleMediaFile
      requires 0 < playlistLength <= maxNumSegmentFiles ==> |locations| - maxNumSegmentFiles <= writtenFrom
      modifies this`oldSegmentLocations, this`deleted
      ensures FilesValid() && deleted == Max(old(deleted), |locations| - maxNumSegmentFiles)
    {
      while |oldSegmentLocations| > maxNumSegmentFiles
        invariant old(deleted) <= deleted <= |locations| && oldSegmentLocations == locations[deleted..]
        invariant old(deleted) < deleted ==> deleted <= |locations| - maxNumSegmentFiles
      {
        oldSegmentLocations := oldSegmentLocations[1..];
        deleted := deleted + 1;
      }
    }

    method AddSegment(location: string, segment: Segment, written: bool)
      requires Valid()
      modifies this`oldSegmentLocations, this`locations, this`deleted, this`writtenFrom, this`writtenTo, playlist
      ensures Valid() && playlist.history == old(playlist.history) + [segment]
      ensures playlist.playlistType == old(playlist.playlistType)
      ensures playlist.playlistType == None ==> locations == old(locations) + [location]
      ensures written && playlist.playlistType == None && maxNumSegmentFiles > 0 && !singleMediaFile ==>
                deleted == Max(0, |locations| - maxNumSegmentFiles)
      ensures !written || playlist.playlistType.Some? || maxNumSegmentFiles == 0 || singleMediaFile ==>
                deleted == old(deleted)
      ensures if written then writtenFrom == playlist.first && writtenTo == |playlist.history|
              else writtenFrom == old(writtenFrom) && writtenTo == old(writtenTo)
    {
      playlist.AddSegment(segment);
      if playlist.playlistType == None {
        oldSegmentLocations := oldSegmentLocations + [location];
        locations := locations + [location];
      }
      WritePlaylist(written);
    }

    /**
     Closing stops the playlist and writes it once more. For a playlist that stays untyped this write
     has no new segment to count, so every listed segment's number goes up by one; otherwise numbers stay.
     */
    method Close(enableEndlist: bool, written: bool)
      requires Valid() && playlist.started
      modifies this`oldSegmentLocations, this`deleted, this`writtenFrom, this`writtenTo, playlist
      ensures playlist.segments == old(playlist.segments) && playlist.history == old(playlist.history)
      ensures playlist.Valid() && FilesValid() && playlist.endList == enableEndlist
      ensures playlist.playlistType == if playlist.turnVod then Some(Vod) else old(playlist.playlistType)
      ensures playlist.mediaSequence == old(playlist.mediaSequence) + if playlist.playlistType == None then 1 else 0
    {
      playlist.Stop(enableEndlist);
      WritePlaylist(written);
    }

    /** An untyped playlist lists the last `playlistLength` segments, or all of them if that is zero. */
    lemma ListedSegments()
      requires Valid() && playlist.playlistType == None
      ensures |playlist.segments| == if playlistLength == 0 then |playlist.history|
                                     else Min(|playlist.history|, playlistLength)
      ensures playlist.mediaSequence == |playlist.history| - |playlist.segments|
    {
    }

    /**
     The `i`-th listed segment carries the number of its position in the full history, so its number
     never changes, and its init map is the one in force there.
     */
    lemma NumbersNeverChange(i: nat)
      requires Valid() && i < |playlist.segments|
      requires playlist.isCmaf || forall h :: 0 <= h < |playlist.history| ==> playlist.history[h].initMap == None
      ensures |playlist.segments| == |playlist.history| - playlist.mediaSequence
      ensures playlist.segments[i].uri == playlist.history[playlist.mediaSequence + i].uri
      ensures InForce(playlist.segments, i) == InForce(playlist.history, playlist.mediaSequence + i)
    {
      ListedAs(playlist.history, playlist.first, playlist.isCmaf, playlist.segments, i);
    }

    /** With `0 < playlistLength <= maxNumSegmentFiles` the file of every listed segment is still there. */
    lemma ListedFilesExist(i: nat)
      requires Valid() && playlist.playlistType == None
      requires maxNumSegmentFiles > 0 && !singleMediaFile ==> 0 < playlistLength <= maxNumSegmentFiles
      requires forall a, b :: 0 <= a < b < |locations| ==> locations[a] != locations[b]
      requires playlist.mediaSequence <= i < |locations|
      ensures locations[i] !in locations[..deleted]
    {
    }

    /** So is the file of every segment that the playlist on disk names, however many writes have failed since. */
    lemma WrittenFilesExist(i: nat)
      requires Valid() && playlist.playlistType == None
      requires maxNumSegmentFiles > 0 && !singleMediaFile ==> 0 < playlistLength <= maxNumSegmentFiles
      requires forall a, b :: 0 <= a < b < |locations| ==> locations[a] != locations[b]
      requires writtenFrom <= i < writtenTo
      ensures i < |locations| && locations[i] !in locations[..deleted]
    {
    }

    /**
     Right after an added segment was written, and with deletion on, no listed segment has lost its
     file if and only if there are not yet too many segments or the playlist is bounded and no longer
     than the number of files kept.
     */
    lemma FilesKeptIff()
      requires Valid() && playlist.playlistType == None && maxNumSegmentFiles > 0 && !singleMediaFile
      requires deleted == Max(0, |locations| - maxNumSegmentFiles)
      requires forall a, b :: 0 <= a < b < |locations| ==> locations[a] != locations[b]
      ensures (forall i :: playlist.mediaSequence <= i < |locations| ==> locations[i] !in locations[..deleted])
         <==> |locations| <= maxNumSegmentFiles || 0 < playlistLength <= maxNumSegmentFiles
      ensures deleted <= playlist.mediaSequence
         <==> |locations| <= maxNumSegmentFiles || 0 < playlistLength <= maxNumSegmentFiles
    {
      if playlist.mediaSequence < deleted {
        assert locations[playlist.mediaSequence] in locations[..deleted];
      }
    }
  }

  /**
   Under any other setting the file of a listed segment goes as soon as there is one segment more than
   files are kept: the first one is deleted and still listed.
   */
  method ListedFileLost(c: Context, names: seq<string>, segments: seq<Segment>)
    requires c.Valid() && c.playlist.playlistType == None && c.maxNumSegmentFiles > 0 && !c.singleMediaFile
    requires c.locations == []
    requires !(0 < c.playlistLength <= c.maxNumSegmentFiles)
    requires |names| == |segments| == c.maxNumSegmentFiles + 1
    modifies c, c.playlist
    ensures c.Valid() && |c.locations| == |names|
    ensures c.playlist.mediaSequence == 0 && |c.playlist.segments| == |names| && c.deleted == 1
  {
    for i := 0 to |names|
      invariant c.Valid() && c.playlist.playlistType == None && |c.locations| == i
      invariant c.deleted == Max(0, i - c.maxNumSegmentFiles)
    {
      c.AddSegment(names[i], segments[i], true);
    }
  }
}
