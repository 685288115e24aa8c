/** An evbuffer as other modules see it: its content.  The Evbuffer modules prove that
    the chunk lists of buffer.c behave like this. */
module ByteQueue {
  import opened Bytes

  class Buffer {
    var content: seq<byte>

    constructor ()
      ensures content == []
    {
      content := [];
    }

    /** evbuffer_add */
    method Add(data: seq<byte>)
      modifies this
      ensures content == old(content) + data
    {
      content := content + data;
    }

    /** evbuffer_add_buffer */
    method AddBuffer(src: Buffer)
      requires src != this
      modifies this, src
      ensures content == old(content) + old(src.content) && src.content == []
    {
      content := content + src.content;
      src.content := [];
    }

    /** evbuffer_drain */
    method Drain(n: nat)
      modifies this
      ensures content == if n <= |old(content)| then old(content)[n..] else []
    {
      content := if n <= |content| then content[n..] else [];
    }

    /** evbuffer_remove */
    method Remove(n: nat) returns (data: seq<byte>)
      modifies this
      ensures data + content == old(content) && |data| == if n <= |old(content)| then n else |old(content)|
    {
      var m := if n <= |content| then n else |content|;
      data, content := content[..m], content[m..];
    }
  }
}
