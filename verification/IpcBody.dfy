/** The body of an IPC record batch message: recordBatchToIpc puts the body buffers one after another, each padded to
    8 bytes, as the "Serialization and Interprocess Communication (IPC)" part of the Arrow columnar format asks. */
module IpcBody {
  import opened Wrappers
  import opened Bytes

  /** libqore's BinaryNode, as far as it is used here. */
  class Binary {
    var bytes: seq<byte>

    constructor ()
      ensures bytes == []
    {
      bytes := [];
    }

    method Append(data: seq<byte>)
      modifies this
      ensures bytes == old(bytes) + data
    {
      bytes := bytes + data;
    }

    /** Makes room for n bytes, which then count as content. */
    method Preallocate(n: nat)
      modifies this
      ensures |bytes| == n
    {
      bytes := seq(n, _ => 0);
    }

    method SetSize(n: nat)
      requires n <= |bytes|
      modifies this
      ensures bytes == old(bytes)[..n]
    {
      bytes := bytes[..n];
    }
  }

  /** A body buffer of the payload; null for an absent one. */
  type Buffer = Option<seq<byte>>

  function Size(buffer: Buffer): nat {
    if buffer.Some? then |buffer.value| else 0
  }

  /** (n + 7) & ~7. */
  function PaddedSize(n: nat): nat {
    AlignUp(n, 3)
  }

  /** Where buffer i starts. */
  function Start(buffers: seq<Buffer>, i: nat): nat
    requires i <= |buffers|
  {
    if i == 0 then 0 else Start(buffers, i - 1) + PaddedSize(Size(buffers[i - 1]))
  }

  /** The layout: every buffer in place at its start, and zeros everywhere else. */
  ghost predicate LaidOut(body: seq<byte>, buffers: seq<Buffer>, n: nat)
    requires n <= |buffers|
  {
    && |body| == Start(buffers, n)
    && (forall i :: 0 <= i < n ==> Placed(body, buffers, i))
  }

  ghost predicate Placed(body: seq<byte>, buffers: seq<Buffer>, i: nat)
    requires i < |buffers|
  {
    var at, size := Start(buffers, i), Size(buffers[i]);
    && at + size <= Start(buffers, i + 1) <= |body|
    && (buffers[i].Some? ==> body[at..at + size] == buffers[i].value)
    && (forall k :: at + size <= k < Start(buffers, i + 1) ==> body[k] == 0)
  }

  /** The least multiple of 8 that is not below n. */
  lemma PaddedSizeIsLeast(n: nat)
    ensures PaddedSize(n) % 8 == 0 && n <= PaddedSize(n) < n + 8
    ensures forall m: nat :: m % 8 == 0 && n <= m ==> PaddedSize(n) <= m
    ensures PaddedSize(n) == 0 <==> n == 0
  {
    assert Power(2, 3) == 8 by {
      assert Power(2, 0) == 1 && Power(2, 1) == 2 && Power(2, 2) == 4;
    }
    AlignUpIsLeastMultiple(n, 3);
    forall m: nat | m % 8 == 0 && n <= m
      ensures PaddedSize(n) <= m
    {
      assert Multiple(m, Power(2, 3));
    }
  }

  /** The two loops of recordBatchToIpc. */
  method AssembleBody(buffers: seq<Buffer>) returns (body: Binary)
    ensures fresh(body)
    ensures LaidOut(body.bytes, buffers, |buffers|)
  {
    hide PaddedSize;
    var bodySize := 0;
    for i := 0 to |buffers|
      invariant bodySize == Start(buffers, i)
    {
      if buffers[i].Some? {
        bodySize := bodySize + PaddedSize(|buffers[i].value|);
      } else {
        PaddedSizeIsLeast(0);
      }
    }
    body := new Binary();
    if bodySize > 0 {
      body.Preallocate(bodySize);
      body.SetSize(0);
      for i := 0 to |buffers|
        invariant fresh(body) && LaidOut(body.bytes, buffers, i)
      {
        ghost var before := body.bytes;
        PaddedSizeIsLeast(Size(buffers[i]));
        if buffers[i].Some? && |buffers[i].value| > 0 {
          var data := buffers[i].value;
          body.Append(data);
          var pad := PaddedSize(|data|) - |data|;
          if pad > 0 {
            body.Append(seq(pad, _ => 0));
          }
        }
        StillPlaced(before, body.bytes, buffers, i);
      }
    } else {
      NothingToPlace(buffers, |buffers|);
    }
  }

  lemma StillPlaced(before: seq<byte>, after: seq<byte>, buffers: seq<Buffer>, n: nat)
    requires n < |buffers| && LaidOut(before, buffers, n)
    requires var data := if buffers[n].Some? then buffers[n].value else [];
      var size := PaddedSize(|data|);
      size >= |data| && after == before + data + seq(size - |data|, _ => 0)
    ensures LaidOut(after, buffers, n + 1)
  {
    hide PaddedSize;
    forall i | 0 <= i < n
      ensures Placed(after, buffers, i)
    {
      assert Placed(before, buffers, i);
      StartsGrow(buffers, i + 1, n);
    }
    assert Placed(after, buffers, n);
  }

  lemma {:induction false} StartsGrow(buffers: seq<Buffer>, i: nat, j: nat)
    requires i <= j <= |buffers|
    ensures Start(buffers, i) <= Start(buffers, j)
  {
    hide PaddedSize;
    if i < j {
      StartsGrow(buffers, i, j - 1);
    }
  }

  lemma {:induction false} NothingToPlace(buffers: seq<Buffer>, n: nat)
    requires n <= |buffers| && Start(buffers, n) == 0
    ensures LaidOut([], buffers, n)
  {
    hide PaddedSize;
    if n > 0 {
      PaddedSizeIsLeast(Size(buffers[n - 1]));
      NothingToPlace(buffers, n - 1);
      assert Placed([], buffers, n - 1);
    }
  }

  lemma PaddedSizeIsWhole(n: nat)
    ensures PaddedSize(n) % 8 == 0 && (PaddedSize(n) == 0 <==> n == 0)
  {
    PaddedSizeIsLeast(n);
  }

  /** Every buffer starts at a multiple of 8, and takes no space exactly when it is absent or empty. */
  lemma {:induction false} StartsAreAligned(buffers: seq<Buffer>, i: nat)
    requires i <= |buffers|
    ensures Start(buffers, i) % 8 == 0
    ensures i < |buffers| ==> (Start(buffers, i + 1) == Start(buffers, i) <==> Size(buffers[i]) == 0)
  {
    hide PaddedSize, Size;
    if i < |buffers| {
      PaddedSizeIsWhole(Size(buffers[i]));
    }
    if i > 0 {
      PaddedSizeIsWhole(Size(buffers[i - 1]));
      StartsAreAligned(buffers, i - 1);
    }
  }

  /** The body and the sizes, which the message header carries, determine the content of every buffer. */
  lemma BodyDeterminesBuffers(body: seq<byte>, buffers: seq<Buffer>, others: seq<Buffer>)
    requires |buffers| == |others| && forall i :: 0 <= i < |buffers| ==> Size(buffers[i]) == Size(others[i])
    requires LaidOut(body, buffers, |buffers|) && LaidOut(body, others, |others|)
    ensures forall i :: 0 <= i < |buffers| && buffers[i].Some? && others[i].Some? ==> buffers[i] == others[i]
  {
    forall i | 0 <= i < |buffers| && buffers[i].Some? && others[i].Some?
      ensures buffers[i] == others[i]
    {
      SameStart(buffers, others, i);
      assert Placed(body, buffers, i) && Placed(body, others, i);
    }
  }

  lemma {:induction false} SameStart(buffers: seq<Buffer>, others: seq<Buffer>, i: nat)
    requires i <= |buffers| == |others| && forall k :: 0 <= k < |buffers| ==> Size(buffers[k]) == Size(others[k])
    ensures Start(buffers, i) == Start(others, i)
  {
    if i > 0 {
      SameStart(buffers, others, i - 1);
    }
  }

  /** The layout leaves no freedom: two bodies of the same buffers are equal. */
  lemma BuffersDetermineBody(body: seq<byte>, other: seq<byte>, buffers: seq<Buffer>)
    requires LaidOut(body, buffers, |buffers|) && LaidOut(other, buffers, |buffers|)
    ensures body == other
  {
    SamePrefix(body, other, buffers, |buffers|);
  }

  lemma {:induction false} SamePrefix(body: seq<byte>, other: seq<byte>, buffers: seq<Buffer>, n: nat)
    requires LaidOut(body, buffers, |buffers|) && LaidOut(other, buffers, |buffers|) && n <= |buffers|
    ensures Start(buffers, n) <= |body| && body[..Start(buffers, n)] == other[..Start(buffers, n)]
  {
    hide PaddedSize;
    if n > 0 {
      SamePrefix(body, other, buffers, n - 1);
      assert Placed(body, buffers, n - 1) && Placed(other, buffers, n - 1);
      var a, m, e := Start(buffers, n - 1), Start(buffers, n - 1) + Size(buffers[n - 1]), Start(buffers, n);
      forall k | 0 <= k < e
        ensures body[k] == other[k]
      {
        if k < a {
          assert body[k] == body[..a][k] == other[..a][k];
        } else if k < m {
          assert body[k] == body[a..m][k - a] && other[k] == other[a..m][k - a];
        }
      }
    }
  }
}
