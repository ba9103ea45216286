/** A file sent up in chunks and read back in chunks (`write_bytes`, `read_bytes`). */
module Transfer {
  import opened ByteStrings
  import opened Text

  const MAX_READ_CHUNK: nat := 8 * 1024 * 1024
  const DEFAULT_LENGTH: nat := 4 * 1024 * 1024

  datatype Read = Read(chunk: Bytes, eof: bool)

  /** The file at one path below the root, if there is one. */
  class File {
    var content: Option<Bytes>

    constructor ()
      ensures content.None?
    {
      content := None;
    }

    /** `write_bytes`: the file is made when missing, emptied unless appending. */
    method WriteBytes(data: Bytes, append: bool)
      modifies this
      ensures Written(old(content), data, append, content)
    {
      if append && content.Some? {
        content := Some(content.value + data);
      } else {
        content := Some(data);
        assert [] + data == data;
      }
    }

    /** `read_bytes`: `given` is how many bytes the system would hand over at once; it
        may fall short, but not to none while there are some. */
    method ReadBytes(offset: int, length: int, given: nat) returns (r: Option<Read>)
      requires given > 0
      ensures r.None? <==> content.None?
      ensures r.Some? ==> Answers(content.value, offset, length, r.value)
    {
      if content.None? {
        return None;
      }
      var from := if offset > 0 then offset else 0;
      var wanted := if length <= 0 then DEFAULT_LENGTH else length;
      if wanted > MAX_READ_CHUNK {
        wanted := MAX_READ_CHUNK;
      }
      var size := |content.value|;
      var chunk: Bytes := [];
      if from < size {
        var n := if given < wanted then given else wanted;
        if n > size - from {
          n := size - from;
        }
        chunk := content.value[from..from + n];
      }
      r := Some(Read(chunk, from + |chunk| >= size));
    }
  }

  /** What a reader can count on: bytes of the file from where it asked, no more than
      asked for nor than the cap, some unless there are none, and `eof` exactly when
      they reach the end. */
  predicate Answers(content: Bytes, offset: int, length: int, read: Read)
  {
    var from := if offset > 0 then offset else 0;
    && |read.chunk| <= MAX_READ_CHUNK
    && |read.chunk| <= (if length > 0 then length else DEFAULT_LENGTH)
    && (if from < |content| then read.chunk != [] && from + |read.chunk| <= |content|
                                 && read.chunk == content[from..from + |read.chunk|]
        else read.chunk == [])
    && (read.eof <==> from + |read.chunk| >= |content|)
  }

  /** The file's content along an upload: the first chunk replaces, the rest append. */
  ghost predicate Upload(chunks: seq<Bytes>, contents: seq<Option<Bytes>>)
  {
    && |contents| == |chunks| + 1
    && forall i | 0 <= i < |chunks| :: Written(contents[i], chunks[i], i > 0, contents[i + 1])
  }

  ghost predicate Written(content: Option<Bytes>, data: Bytes, append: bool, content': Option<Bytes>)
  {
    content' == Some((if append && content.Some? then content.value else []) + data)
  }

  /** Whatever was there before, an upload leaves the chunks put together. */
  lemma {:induction false} UploadWritesAll(chunks: seq<Bytes>, contents: seq<Option<Bytes>>)
    requires Upload(chunks, contents) && chunks != []
    ensures contents[|chunks|] == Some(Flatten(chunks))
    decreases |chunks|
  {
    var last := |chunks| - 1;
    assert Written(contents[last], chunks[last], last > 0, contents[last + 1]);
    if last > 0 {
      assert Upload(chunks[..last], contents[..last + 1]);
      UploadWritesAll(chunks[..last], contents[..last + 1]);
    } else {
      assert chunks[..last] == [];
    }
  }

  function Received(pieces: seq<Read>): Bytes
  {
    if pieces == [] then [] else Received(pieces[..|pieces| - 1]) + pieces[|pieces| - 1].chunk
  }

  /** Reads of a file, each from where the one before ended, for any lengths, the first
      `eof` being the last read. */
  ghost predicate Download(content: Bytes, lengths: seq<int>, pieces: seq<Read>)
  {
    && |lengths| == |pieces|
    && forall i | 0 <= i < |pieces| ::
         && Answers(content, |Received(pieces[..i])|, lengths[i], pieces[i])
         && (pieces[i].eof ==> i == |pieces| - 1)
  }

  /** One read further from a prefix of the file. */
  lemma ReadFurther(content: Bytes, before: Bytes, length: int, piece: Read)
    requires before <= content && Answers(content, |before|, length, piece)
    ensures before + piece.chunk <= content
    ensures piece.eof <==> before + piece.chunk == content
    ensures before != content ==> piece.chunk != []
  {
    var after := before + piece.chunk;
    if |before| < |content| {
      assert after == content[..|after|];
      assert |after| == |content| ==> after == content;
    } else {
      assert after == before == content;
    }
  }

  /** A download has the file's bytes so far, in order, and sees `eof` exactly when it
      has them all, after at most one read more than there are bytes. */
  lemma {:induction false} DownloadReadsAll(content: Bytes, lengths: seq<int>, pieces: seq<Read>)
    requires Download(content, lengths, pieces)
    ensures Received(pieces) <= content
    ensures pieces != [] ==> (pieces[|pieces| - 1].eof <==> Received(pieces) == content)
    ensures |pieces| <= |Received(pieces)| + if pieces != [] && content == [] then 1 else 0
    decreases |pieces|
  {
    hide Answers;
    if pieces == [] {
    } else {
      var last := |pieces| - 1;
      var init := pieces[..last];
      forall i | 0 <= i < last ensures init[..i] == pieces[..i] && init[i] == pieces[i] {}
      assert Download(content, lengths[..last], init);
      DownloadReadsAll(content, lengths[..last], init);
      if last > 0 {
        assert !pieces[last - 1].eof && init[last - 1] == pieces[last - 1];
      }
      ReadFurther(content, Received(init), lengths[last], pieces[last]);
    }
  }

  /** What goes up in chunks comes back whole, however it is cut in either direction. */
  lemma RoundTrip(chunks: seq<Bytes>, contents: seq<Option<Bytes>>, lengths: seq<int>, pieces: seq<Read>)
    requires Upload(chunks, contents) && chunks != []
    requires contents[|chunks|].Some? && Download(contents[|chunks|].value, lengths, pieces)
    requires pieces != [] && pieces[|pieces| - 1].eof
    ensures Received(pieces) == Flatten(chunks)
    ensures |pieces| <= |Flatten(chunks)| + 1
  {
    UploadWritesAll(chunks, contents);
    DownloadReadsAll(contents[|chunks|].value, lengths, pieces);
  }
}
