/** The driver's shared read/write buffer (buffer.go). */
module ReadBuffer {
  import opened Words

  /** The network as a reader sees it: the bytes still to come, the sizes in which they happen to
      arrive, and whether the end is announced together with the last bytes or after them. */
  class Source {
    var data: seq<byte>
    var sizes: seq<nat>
    const eager: bool

    constructor (data: seq<byte>, sizes: seq<nat>, eager: bool)
      ensures this.data == data
    {
      this.data, this.sizes, this.eager := data, sizes, eager;
    }

    /** io.Reader: stores some bytes from position start on. At least one byte comes unless the
        stream has ended or there is no room. */
    method Read(dest: array<byte>, start: nat) returns (n: nat, eof: bool)
      requires start <= dest.Length
      modifies this, dest
      ensures n <= |old(data)| && start + n <= dest.Length && data == old(data)[n..]
      ensures dest[start..start + n] == old(data)[..n]
      ensures forall k :: 0 <= k < start ==> dest[k] == old(dest[k])
      ensures eof ==> data == []
      ensures !eof && start < dest.Length ==> n > 0
    {
      var size := if |sizes| > 0 then sizes[0] else 1;
      sizes := if |sizes| > 0 then sizes[1..] else [];
      size := if size == 0 then 1 else size;
      var room := dest.Length - start;
      n := if size < |data| then size else |data|;
      n := if n < room then n else room;
      ghost var all := data;
      for k := 0 to n
        invariant data == all
        invariant forall j :: 0 <= j < start ==> dest[j] == old(dest[j])
        invariant forall j :: 0 <= j < k ==> dest[start + j] == all[j]
      {
        dest[start + k] := data[k];
      }
      data := data[n..];
      eof := data == [] && (eager || n == 0);
    }
  }

  const DEFAULT_SIZE: int := 4096

  const MAX_CACHED: int := 256 * 1024

  class Buffer {
    /** The unread bytes are arr[lo..hi]; cached is the array kept for reuse, often the same. */
    var arr: array<byte>
    var lo: nat
    var hi: nat
    var cached: array<byte>

    ghost predicate Valid()
      reads this
    {
      lo <= hi <= arr.Length && DEFAULT_SIZE <= cached.Length <= MAX_CACHED
    }

    ghost function Contents(): seq<byte>
      requires Valid()
      reads this, arr
    {
      arr[lo..hi]
    }

    constructor ()
      ensures Valid() && Contents() == [] && fresh(cached) && arr == cached
    {
      var a := new byte[DEFAULT_SIZE](_ => 0);
      arr, lo, hi, cached := a, 0, 0, a;
    }

    function Len(): nat
      requires Valid()
      reads this
    {
      hi - lo
    }

    function Busy(): bool
      requires Valid()
      reads this
    {
      Len() > 0
    }

    /** Where to move the bytes: the cached array, or a larger one in steps of the default size,
        which is kept if it is not too large. */
    method Destination(need: nat) returns (dest: array<byte>)
      requires Valid()
      modifies this`cached
      ensures Valid() && need <= dest.Length
      ensures dest == old(cached) || fresh(dest)
      ensures cached == old(cached) || (cached == dest && fresh(dest))
      ensures cached.Length >= old(cached.Length)
    {
      dest := cached;
      if need > dest.Length {
        dest := new byte[(need / DEFAULT_SIZE + 1) * DEFAULT_SIZE](_ => 0);
        if dest.Length <= MAX_CACHED {
          cached := dest;
        }
      }
    }

    /** copy(dest[:n], buf): correct also when the two overlap, since bytes only move down. */
    method MoveDown(dest: array<byte>)
      requires Valid() && Len() <= dest.Length
      modifies dest
      ensures dest[..Len()] == old(Contents())
    {
      ghost var c := Contents();
      var n := hi - lo;
      for k := 0 to n
        invariant forall j :: 0 <= j < k ==> dest[j] == c[j]
        invariant forall j :: k <= j < n ==> arr[lo + j] == c[j]
      {
        dest[k] := arr[lo + k];
      }
      assert dest[..n] == c;
    }

    /** Reads until at least need bytes are there. Whatever the sizes in which they arrive, no byte
        is lost, repeated or reordered; it fails exactly when the stream ends too early. */
    method Fill(need: nat, r: Source) returns (ok: bool)
      requires Valid() && Len() < need
      modifies this, cached, r
      ensures Valid() && (cached == old(cached) || fresh(cached)) && (arr == old(cached) || fresh(arr))
      ensures cached.Length >= old(cached.Length)
      ensures Contents() + r.data == old(Contents() + r.data)
      ensures ok <==> need <= |old(Contents() + r.data)|
      ensures ok ==> need <= Len()
    {
      ghost var c, rest := Contents(), r.data;
      var start := hi - lo;
      var dest := Destination(need);
      MoveDown(dest);
      assert dest[..start] == c;
      var n := ReadInto(dest, start, need, r);
      arr, lo, hi := dest, 0, n;
      assert Contents() == dest[..n];
      assert |dest[..n] + r.data| == |c + rest|;
      ok := n >= need;
    }

    /** The loop of fill: reads behind the first n bytes of dest until there are enough. */
    method ReadInto(dest: array<byte>, start: nat, need: nat, r: Source) returns (n: nat)
      requires start < need <= dest.Length
      modifies dest, r
      ensures start <= n <= dest.Length && dest[..n] + r.data == old(dest[..start] + r.data)
      ensures n < need ==> r.data == []
    {
      n := start;
      ghost var all := dest[..n] + r.data;
      while true
        invariant start <= n < need && dest[..n] + r.data == all
        decreases |r.data|
      {
        ghost var before, rest := dest[..n], r.data;
        var nn, eof := r.Read(dest, n);
        assert dest[..n + nn] == before + rest[..nn];
        assert before + rest[..nn] + r.data == all by { assert rest[..nn] + r.data == rest; }
        n := n + nn;
        if !eof && n < need {
          continue;
        }
        return;
      }
    }

    /** The next bytes. */
    method ReadNext(need: nat) returns (s: seq<byte>)
      requires Valid() && need <= Len()
      modifies this`lo
      ensures Valid() && s == old(Contents())[..need] && Contents() == old(Contents())[need..]
    {
      s := arr[lo..lo + need];
      assert s == Contents()[..need] && arr[lo + need..hi] == Contents()[need..];
      lo := lo + need;
    }

    /** takeBuffer: refused while unread bytes are there; otherwise an array of at least the length
        asked for, and the cached array never shrinks nor passes 256 KiB. */
    method TakeBuffer(length: nat) returns (ok: bool, a: array<byte>)
      requires Valid()
      modifies this`cached
      ensures Valid() && (ok <==> !Busy()) && cached.Length >= old(cached.Length)
      ensures ok ==> a.Length >= length && (a == old(cached) || fresh(a))
      ensures ok && length <= old(cached.Length) ==> a == cached == old(cached)
      ensures ok && old(cached.Length) < length < MAX_CACHED ==> a == cached && a.Length == length
      ensures ok && length >= MAX_CACHED && length > old(cached.Length) ==> cached == old(cached)
      ensures !ok ==> cached == old(cached)
    {
      a := cached;
      if Busy() {
        return false, a;
      }
      if length <= cached.Length {
        return true, a;
      }
      a := new byte[length](_ => 0);
      if length < MAX_CACHED {
        cached := a;
      }
      return true, a;
    }

    /** store: keeps a larger array that came out of writing, unless it is too large. */
    method Store(a: array<byte>)
      requires Valid()
      modifies this`cached
      ensures Valid() && cached.Length >= old(cached.Length)
      ensures cached == if old(cached.Length) < a.Length <= MAX_CACHED then a else old(cached)
    {
      if a.Length <= MAX_CACHED && a.Length > cached.Length {
        cached := a;
      }
    }
  }
}
