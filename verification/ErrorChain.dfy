/** u3_error.c: the error text of a device handle, a C string in a fixed buffer that
    each layer prepends to. */
module ErrorChain {

  const MAX_ERROR_LEN := 1024

  predicate IsText(s: string) {
    '\0' !in s
  }

  // What fits in the buffer beside the terminator.
  function Clip(s: string): (r: string)
    ensures |r| < MAX_ERROR_LEN
  {
    if |s| < MAX_ERROR_LEN then s else s[..MAX_ERROR_LEN - 1]
  }

  lemma TextJoin(a: string, b: string)
    requires IsText(a) && IsText(b)
    ensures IsText(a + b)
  {
  }

  class Handle {
    const errMsg: array<char>
    ghost var text: string

    // The buffer is terminated, and text is what stands before the terminator.
    ghost predicate Valid()
      reads this, errMsg
    {
      && errMsg.Length == MAX_ERROR_LEN
      && |text| < MAX_ERROR_LEN && IsText(text)
      && errMsg[..|text|] == text && errMsg[|text|] == '\0'
    }

    constructor ()
      ensures Valid() && text == "" && fresh(errMsg)
    {
      errMsg := new char[MAX_ERROR_LEN](i => '\0');
      text := "";
    }

    // vsnprintf(errMsg, MAX_ERROR_LEN, ...) for the expanded text msg, and the terminator after it.
    method Print(msg: string)
      requires errMsg.Length == MAX_ERROR_LEN && IsText(msg)
      modifies this, errMsg
      ensures Valid() && text == Clip(msg)
    {
      text := Clip(msg);
      var n := if |msg| < MAX_ERROR_LEN then |msg| else MAX_ERROR_LEN - 1;
      forall i | 0 <= i < n {
        errMsg[i] := msg[i];
      }
      errMsg[n] := '\0';
      errMsg[MAX_ERROR_LEN - 1] := '\0';
    }

    method Strlen() returns (n: nat)
      requires Valid()
      ensures n == |text|
    {
      n := 0;
      while errMsg[n] != '\0'
        invariant n <= |text|
        invariant n < |text| ==> errMsg[n] == text[n] && text[n] in text
        decreases |text| - n
      {
        n := n + 1;
      }
    }

    // strncat(errMsg, src, n): at most n characters, then the terminator.
    method Strncat(src: string, n: nat)
      requires Valid() && IsText(src) && |text| + n < MAX_ERROR_LEN
      modifies this, errMsg
      ensures Valid() && text == old(text) + if |src| <= n then src else src[..n]
    {
      var len := Strlen();
      var count := if |src| <= n then |src| else n;
      ghost var head, added := text, src[..count];
      forall i | 0 <= i < count {
        errMsg[len + i] := src[i];
      }
      assert errMsg[..len] == head && errMsg[len..len + count] == added;
      errMsg[len + count] := '\0';
      text := text + src[..count];
      TextJoin(head, added);
      assert errMsg[..len + count] == errMsg[..len] + errMsg[len..len + count];
    }

    method SetError(msg: string)
      requires errMsg.Length == MAX_ERROR_LEN && IsText(msg)
      modifies this, errMsg
      ensures Valid() && text == Clip(msg)
    {
      Print(msg);
    }

    // memory tells whether strdup finds the memory for a copy.
    method PrependError(msg: string, memory: bool)
      requires Valid() && IsText(msg)
      modifies this, errMsg
      ensures Valid()
      ensures text == if memory then Clip(msg + ": " + old(text)) else old(text)
    {
      if !memory {
        return;
      }
      var len := Strlen();
      var oldMsg := errMsg[..len];
      Print(msg);
      len := Strlen();
      Strncat(": ", MAX_ERROR_LEN - len - 1);
      len := Strlen();
      Strncat(oldMsg, MAX_ERROR_LEN - len - 1);
      ClipInStages(msg, ": ", oldMsg);
    }
  }

  /** The buffer has room for 1023 characters: a longer text is cut there, and a shorter one is kept. */
  lemma ClipMeans(s: string)
    ensures |s| <= 1023 ==> Clip(s) == s
    ensures |s| > 1023 ==> |Clip(s)| == 1023 && Clip(s) <= s
  {
  }

  // What the two strncat calls make of a buffer that holds a.
  function Append(a: string, b: string): string
    requires |a| < MAX_ERROR_LEN
  {
    var n := MAX_ERROR_LEN - |a| - 1;
    a + if |b| <= n then b else b[..n]
  }

  /** Truncating at every stage is truncating once at the end, also when nothing more fits. */
  lemma ClipInStages(a: string, b: string, c: string)
    ensures |Append(Clip(a), b)| < MAX_ERROR_LEN
    ensures Append(Append(Clip(a), b), c) == Clip(a + b + c)
  {
    AppendIsClip(a, b);
    AppendIsClip(a + b, c);
  }

  lemma AppendIsClip(a: string, b: string)
    ensures Append(Clip(a), b) == Clip(a + b)
  {
  }

  // "m_k: ...: m_1: m_0" for messages m_0, ..., m_k.
  function Chain(msgs: seq<string>): string
    requires msgs != []
  {
    var k := |msgs| - 1;
    if k == 0 then msgs[0] else msgs[k] + ": " + Chain(msgs[..k])
  }

  lemma ClipTail(a: string, b: string)
    ensures Clip(a + Clip(b)) == Clip(a + b)
  {
  }

  /** An error and the prefixes that the callers add to it, innermost first. */
  method Report(handle: Handle, msgs: seq<string>)
    requires handle.errMsg.Length == MAX_ERROR_LEN
    requires msgs != [] && forall i :: 0 <= i < |msgs| ==> IsText(msgs[i])
    modifies handle, handle.errMsg
    ensures handle.Valid() && handle.text == Clip(Chain(msgs))
  {
    handle.SetError(msgs[0]);
    var i := 1;
    assert msgs[..1] == [msgs[0]];
    while i < |msgs|
      invariant 1 <= i <= |msgs|
      invariant handle.Valid() && handle.text == Clip(Chain(msgs[..i]))
    {
      handle.PrependError(msgs[i], true);
      ClipTail(msgs[i] + ": ", Chain(msgs[..i]));
      assert msgs[..i + 1][..i] == msgs[..i];
      i := i + 1;
    }
    assert msgs[..i] == msgs;
  }
}
