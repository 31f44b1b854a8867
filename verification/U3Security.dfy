/** The password actions of main.c and u3_enable_security: the retry gate in front of every password
    command, and the reset that needs no password. */
module U3Security {

  import opened Bytes
  import opened U3Device
  import opened U3Commands
  import opened U3Property

  const PROPERTY_0C_LEN := 10
  const PROPERTY_0C := 0x0C

  // The conversion of uint32_t to int, and uint32_t subtraction.
  function ToInt(v: UInt32): int {
    if v < 0x8000_0000 then v else v - 0x1_0000_0000
  }

  function Minus(a: UInt32, b: UInt32): UInt32 {
    if a >= b then a - b else a - b + 0x1_0000_0000
  }

  /** For all 32-bit values the difference as an int is 0 exactly when the counters are equal, and 1
      exactly when the limit is one ahead, modulo 2^32. */
  lemma DifferenceExact(limit: UInt32, tries: UInt32)
    ensures ToInt(Minus(limit, tries)) == 0 <==> limit == tries
    ensures ToInt(Minus(limit, tries)) == 1 <==> limit == (tries + 1) % 0x1_0000_0000
    ensures Minus(limit, tries) == (limit - tries) % 0x1_0000_0000
  {
    if limit >= tries {
      assert (limit - tries) % 0x1_0000_0000 == limit - tries;
    } else {
      var v := limit - tries + 0x1_0000_0000;
      assert v % 0x1_0000_0000 == v;
      assert (limit - tries) % 0x1_0000_0000 == v;
    }
  }

  /** The number and the length of the property page with the limit. */
  lemma LimitPage()
    ensures PROPERTY_0C == 0x0C && PROPERTY_0C_LEN == 10
  {
  }

  // ---- get_tries_left

  // The field max_pass_try of struct property_0C in memory.
  function MaxPassTry(page: seq<Byte>): nat
    requires |page| >= PROPERTY_0C_LEN
  {
    LeValue(page[6..10])
  }

  // stack is what the uninitialized struct property_0C happens to hold.
  function TriesLeft(n: Nature, s: State, stack: seq<Byte>): (State, bool, int)
    requires |stack| == PROPERTY_0C_LEN
  {
    var a := Exchange(n, s, DataInfo);
    if !a.Ok() then (a.state, false, 0)
    else
      var (s1, ok, page) := ReadProperty(n, a.state, PROPERTY_0C, stack, PROPERTY_0C_LEN);
      LeValueBelow32(page[6..10]);
      (s1, ok, if ok then ToInt(Minus(MaxPassTry(page), s.device.tries)) else 0)
  }

  lemma PassTryField(d: Device)
    ensures LeValue(DataInfoBytes(d)[12..16]) == d.tries && LeValue(DataInfoBytes(d)[0..4]) == d.total
  {
    LeRoundTrip32(d.tries);
    LeRoundTrip32(d.total);
    assert DataInfoBytes(d)[12..16] == Le(d.tries, 4) && DataInfoBytes(d)[0..4] == Le(d.total, 4);
  }

  method GetTriesLeft(h: Handle, stack: seq<Byte>) returns (rc: bool, tries: int)
    requires |stack| == PROPERTY_0C_LEN
    modifies h`state
    ensures (h.state, rc, tries) == TriesLeft(h.nature, old(h.state), stack)
  {
    tries := 0;
    var dpinfo := new Byte[16];
    rc := DataPartitionInfo(h, dpinfo);
    if !rc {
      return;
    }
    PassTryField(old(h.state).device);
    assert dpinfo[12..16] == dpinfo[..][12..16];
    var passTry := LeValue(dpinfo[12..16]);
    var properties := new Byte[PROPERTY_0C_LEN](i requires 0 <= i < PROPERTY_0C_LEN => stack[i]);
    assert properties[..] == stack;
    rc := ReadDeviceProperty(h, PROPERTY_0C, properties, PROPERTY_0C_LEN);
    if !rc {
      return;
    }
    LeValueBelow32(properties[6..10]);
    assert properties[6..10] == properties[..][6..10];
    tries := ToInt(Minus(LeValue(properties[6..10]), passTry));
  }

  // ---- the gate in front of the password commands

  function Gate(n: Nature, s: State, stack: seq<Byte>, answer: bool): (State, bool)
    requires |stack| == PROPERTY_0C_LEN
  {
    var (s1, ok, tries) := TriesLeft(n, s, stack);
    (s1, ok && tries != 0 && (tries == 1 ==> answer))
  }

  // A password action: the new state, whether it succeeded, and whether the command was issued.
  function Guarded(n: Nature, s: State, stack: seq<Byte>, answer: bool, c: Command): (State, bool, bool)
    requires |stack| == PROPERTY_0C_LEN
  {
    var (s1, open) := Gate(n, s, stack, answer);
    if !open then (s1, false, false)
    else
      var (s2, rc, result) := Ask(n, s1, c);
      (s2, rc && result, true)
  }

  // answer is what confirm() returns if it is called.
  method PassGate(h: Handle, stack: seq<Byte>, answer: bool) returns (open: bool)
    requires |stack| == PROPERTY_0C_LEN
    modifies h`state
    ensures (h.state, open) == Gate(h.nature, old(h.state), stack, answer)
  {
    var rc, triesLeft := GetTriesLeft(h, stack);
    if !rc {
      return false;
    }
    if triesLeft == 0 {
      return false;
    } else if triesLeft == 1 {
      if !answer {
        return false;
      }
    }
    open := true;
  }

  method DoUnlock(h: Handle, password: seq<Byte>, stack: seq<Byte>, answer: bool)
    returns (success: bool, asked: bool)
    requires |stack| == PROPERTY_0C_LEN && |password| < 0x3FFF_FFFF
    modifies h`state
    ensures (h.state, success, asked)
         == Guarded(h.nature, old(h.state), stack, answer, Command.Unlock(PassHash(password)))
  {
    asked := PassGate(h, stack, answer);
    if !asked {
      return false, false;
    }
    var rc, result := U3Commands.Unlock(h, password);
    success := rc && result;
  }

  method DoDisableSecurity(h: Handle, password: seq<Byte>, stack: seq<Byte>, answer: bool)
    returns (success: bool, asked: bool)
    requires |stack| == PROPERTY_0C_LEN && |password| < 0x3FFF_FFFF
    modifies h`state
    ensures (h.state, success, asked)
         == Guarded(h.nature, old(h.state), stack, answer, Command.DisableSecurity(PassHash(password)))
  {
    asked := PassGate(h, stack, answer);
    if !asked {
      return false, false;
    }
    var rc, result := U3Commands.DisableSecurity(h, password);
    success := rc && result;
  }

  method DoChangePassword(h: Handle, password: seq<Byte>, newPassword: seq<Byte>, stack: seq<Byte>, answer: bool)
    returns (success: bool, asked: bool)
    requires |stack| == PROPERTY_0C_LEN && |password| < 0x3FFF_FFFF && |newPassword| < 0x3FFF_FFFF
    modifies h`state
    ensures (h.state, success, asked)
         == Guarded(h.nature, old(h.state), stack, answer,
                    Command.ChangePassword(PassHash(password), PassHash(newPassword)))
  {
    asked := PassGate(h, stack, answer);
    if !asked {
      return false, false;
    }
    var rc, result := U3Commands.ChangePassword(h, password, newPassword);
    success := rc && result;
  }

  /** The fields that are read, byte by byte: the limit in page 0x0C, and the counter and the size in the
      information on the data partition. */
  lemma FieldBytes(page: seq<Byte>, d: Device)
    requires |page| >= PROPERTY_0C_LEN
    ensures MaxPassTry(page) == page[6] as nat + 256 * (page[7] as nat)
                                + 0x1_0000 * (page[8] as nat + 256 * (page[9] as nat))
    ensures LeValue(DataInfoBytes(d)[0..4]) == d.total && LeValue(DataInfoBytes(d)[4..8]) == d.secured
    ensures DataInfoBytes(d)[8..12] == (if d.unlocked then [1, 0, 0, 0] else [0, 0, 0, 0])
    ensures LeValue(DataInfoBytes(d)[12..16]) == d.tries
  {
    PassTryField(d);
    LeRoundTrip32(d.secured);
    assert DataInfoBytes(d)[4..8] == Le(d.secured, 4);
    BytesOf([1, 0, 0, 0], 1);
    BytesOf([0, 0, 0, 0], 0);
    assert DataInfoBytes(d)[8..12] == Le(if d.unlocked then 1 else 0, 4);
    FourBytes(page[6..10]);
  }

  // ---- what the gate does

  // The device has a whole page 0x0C, and it states the device's own limit.
  ghost predicate StatesLimit(n: Nature) {
    && PROPERTY_0C in n.pages
    && |n.pages[PROPERTY_0C]| >= PROPERTY_0C_LEN
    && Declared(n.pages[PROPERTY_0C]) >= PROPERTY_0C_LEN
    && MaxPassTry(n.pages[PROPERTY_0C]) == n.maxTries
  }

  predicate LastTry(n: Nature, d: Device) {
    d.tries + 1 == n.maxTries
  }

  lemma DataInfoKeeps(n: Nature, s: State)
    ensures Exchange(n, s, DataInfo).state.device == s.device
  {
  }

  /** The value that the gate compares, and that reading it changes nothing. */
  lemma TriesLeftValue(n: Nature, s: State, stack: seq<Byte>)
    requires |stack| == PROPERTY_0C_LEN
    ensures var (s1, ok, tries) := TriesLeft(n, s, stack);
            && s1.device == s.device
            && (ok && StatesLimit(n) ==> tries == ToInt(Minus(n.maxTries, s.device.tries)))
            && (Reliable(n) && StatesLimit(n) ==> ok)
  {
    var a := Exchange(n, s, DataInfo);
    DataInfoKeeps(n, s);
    TransfersFit(n, a.state, PROPERTY_0C, stack, PROPERTY_0C_LEN);
    var (s1, ok, page) := ReadProperty(n, a.state, PROPERTY_0C, stack, PROPERTY_0C_LEN);
    if Reliable(n) {
      assert n.outcomes(|s.issued|) == Completed;
    }
    if StatesLimit(n) {
      var p := n.pages[PROPERTY_0C];
      PropertyContents(n, a.state, PROPERTY_0C, stack, PROPERTY_0C_LEN);
      if Reliable(n) {
        PropertySucceeds(n, a.state, PROPERTY_0C, stack, PROPERTY_0C_LEN);
      }
      if ok {
        assert page == p[..PROPERTY_0C_LEN] + stack[PROPERTY_0C_LEN..];
        assert page[6..10] == p[6..10];
      }
    }
  }

  /** On a device whose counter is within its limit the gate opens only when the device is not blocked,
      and for the last try only after the user agreed; on a reliable link exactly then. */
  lemma GateSound(n: Nature, s: State, stack: seq<Byte>, answer: bool)
    requires |stack| == PROPERTY_0C_LEN && StatesLimit(n) && s.device.tries <= n.maxTries
    ensures var (s1, open) := Gate(n, s, stack, answer);
            && s1.device == s.device
            && (open ==> !Blocked(n, s.device) && (LastTry(n, s.device) ==> answer))
            && (Reliable(n) ==> (open <==> !Blocked(n, s.device) && (LastTry(n, s.device) ==> answer)))
  {
    TriesLeftValue(n, s, stack);
    DifferenceExact(n.maxTries, s.device.tries);
  }

  /** The gate compares for equality only: on a reliable link it lets a blocked device's password command
      through exactly when the counter has passed the limit. */
  lemma GateOnBlocked(n: Nature, s: State, stack: seq<Byte>)
    requires |stack| == PROPERTY_0C_LEN && StatesLimit(n) && Reliable(n) && Blocked(n, s.device)
    ensures Gate(n, s, stack, true).1 <==> s.device.tries > n.maxTries
  {
    TriesLeftValue(n, s, stack);
    DifferenceExact(n.maxTries, s.device.tries);
  }

  // The limit comes from the page: it has a header, and this either makes the read fail or announces
  // the field, and the page reaches so far.
  predicate GivesLimit(page: seq<Byte>) {
    && |page| >= HEADER_LEN
    && (Declared(page) < HEADER_LEN || Min(Declared(page), |page|) >= PROPERTY_0C_LEN)
  }

  /** The length of page 0x0C is not checked: what get_tries_left gives is independent of the contents of
      the stack if and only if the page, of any length, reaches to the end of the field. */
  lemma LimitFromPage(n: Nature, s: State)
    requires Reliable(n) && PROPERTY_0C in n.pages
    ensures (forall st, st' | |st| == |st'| == PROPERTY_0C_LEN ::
               TriesLeft(n, s, st).1 == TriesLeft(n, s, st').1 && TriesLeft(n, s, st).2 == TriesLeft(n, s, st').2)
       <==> GivesLimit(n.pages[PROPERTY_0C])
  {
    var p := n.pages[PROPERTY_0C];
    if GivesLimit(p) {
      forall st, st' | |st| == |st'| == PROPERTY_0C_LEN
        ensures TriesLeft(n, s, st).1 == TriesLeft(n, s, st').1 && TriesLeft(n, s, st).2 == TriesLeft(n, s, st').2
      {
        LimitGiven(n, s, st);
        LimitGiven(n, s, st');
      }
    } else {
      var st, st' := LimitVaries(n, s);
      assert TriesLeft(n, s, st).2 != TriesLeft(n, s, st').2;
    }
  }

  // What get_tries_left gives on a reliable link for any page.
  lemma TriesLeftReads(n: Nature, s: State, stack: seq<Byte>)
    requires |stack| == PROPERTY_0C_LEN && Reliable(n) && PROPERTY_0C in n.pages
    ensures var p := n.pages[PROPERTY_0C];
            var declared := Declared(Overwrite(stack, p, HEADER_LEN));
            var page := Overwrite(stack, p, Min(declared, PROPERTY_0C_LEN));
            var limit := LeValue(page[6..10]);
            && limit < 0x1_0000_0000
            && TriesLeft(n, s, stack).1 == (declared >= HEADER_LEN)
            && TriesLeft(n, s, stack).2 == if declared >= HEADER_LEN then ToInt(Minus(limit, s.device.tries)) else 0
  {
    var a := Exchange(n, s, DataInfo);
    assert n.outcomes(|s.issued|) == Completed;
    PropertyBytes(n, a.state, PROPERTY_0C, stack, PROPERTY_0C_LEN);
    var p := n.pages[PROPERTY_0C];
    LeValueBelow32(Overwrite(stack, p, Min(Declared(Overwrite(stack, p, HEADER_LEN)), PROPERTY_0C_LEN))[6..10]);
  }

  lemma LimitGiven(n: Nature, s: State, stack: seq<Byte>)
    requires |stack| == PROPERTY_0C_LEN && Reliable(n) && PROPERTY_0C in n.pages && GivesLimit(n.pages[PROPERTY_0C])
    ensures var p := n.pages[PROPERTY_0C];
            && TriesLeft(n, s, stack).1 == (Declared(p) >= HEADER_LEN)
            && (if Declared(p) < HEADER_LEN then TriesLeft(n, s, stack).2 == 0
                else MaxPassTry(p) < 0x1_0000_0000
                     && TriesLeft(n, s, stack).2 == ToInt(Minus(MaxPassTry(p), s.device.tries)))
  {
    var p := n.pages[PROPERTY_0C];
    TriesLeftReads(n, s, stack);
    HeaderDeclares(p, Overwrite(stack, p, HEADER_LEN));
    if Declared(p) >= HEADER_LEN {
      assert Overwrite(stack, p, PROPERTY_0C_LEN)[6..10] == p[6..10];
    }
  }

  /** What a page with a header that stops short of the end of the field, in fact or by what it declares,
      makes of the limit: its own bytes as far as they go, and then the stack. */
  lemma ShortPageReadsStack(n: Nature, s: State, stack: seq<Byte>)
    requires |stack| == PROPERTY_0C_LEN && Reliable(n) && PROPERTY_0C in n.pages
    requires var p := n.pages[PROPERTY_0C];
             |p| >= HEADER_LEN && Declared(p) >= HEADER_LEN && Min(Declared(p), |p|) < PROPERTY_0C_LEN
    ensures var p := n.pages[PROPERTY_0C];
            var m := Min(Declared(p), |p|);
            var limit := LeValue(p[6..m] + stack[m..10]);
            && limit < 0x1_0000_0000 && TriesLeft(n, s, stack).1
            && TriesLeft(n, s, stack).2 == ToInt(Minus(limit, s.device.tries))
  {
    var p := n.pages[PROPERTY_0C];
    var m := Min(Declared(p), |p|);
    TriesLeftReads(n, s, stack);
    HeaderDeclares(p, Overwrite(stack, p, HEADER_LEN));
    Composed(stack, p, Min(Declared(p), PROPERTY_0C_LEN), m);
  }

  lemma Composed(stack: seq<Byte>, page: seq<Byte>, len: nat, m: nat)
    requires |stack| == PROPERTY_0C_LEN && HEADER_LEN <= m <= len <= |stack| && m <= |page|
    requires m == if len <= |page| then len else |page|
    ensures Overwrite(stack, page, len)[6..10] == page[6..m] + stack[m..10]
  {
    OverwriteIs(stack, page, len);
  }

  // Two stacks, alike up to the last byte, that announce more than the page has.
  lemma LimitVaries(n: Nature, s: State) returns (st: seq<Byte>, st': seq<Byte>)
    requires Reliable(n) && PROPERTY_0C in n.pages && !GivesLimit(n.pages[PROPERTY_0C])
    ensures |st| == |st'| == PROPERTY_0C_LEN && TriesLeft(n, s, st).2 != TriesLeft(n, s, st').2
  {
    var p := n.pages[PROPERTY_0C];
    st := seq(PROPERTY_0C_LEN, i => 0xFF);
    st' := st[9 := 0];
    TriesLeftReads(n, s, st);
    TriesLeftReads(n, s, st');
    var len := Announced(p, st, st');
    var b, b' := Overwrite(st, p, len)[6..10], Overwrite(st', p, len)[6..10];
    LastByteCounts(b, b', s.device.tries);
  }

  // Both stacks announce the same length, at least 6, and leave the last byte to the stack.
  lemma Announced(p: seq<Byte>, st: seq<Byte>, st': seq<Byte>) returns (len: nat)
    requires |st| == PROPERTY_0C_LEN && (forall i :: 0 <= i < |st| ==> st[i] == 0xFF) && st' == st[9 := 0]
    requires !GivesLimit(p)
    ensures var d := Declared(Overwrite(st, p, HEADER_LEN));
            && d == Declared(Overwrite(st', p, HEADER_LEN)) >= HEADER_LEN && len == Min(d, PROPERTY_0C_LEN)
    ensures Overwrite(st, p, len)[9] == 0xFF && Overwrite(st', p, len)[9] == 0
  {
    var h, h' := Overwrite(st, p, HEADER_LEN), Overwrite(st', p, HEADER_LEN);
    assert h[4..6] == h'[4..6];
    len := Min(Declared(h), PROPERTY_0C_LEN);
    if |p| >= HEADER_LEN {
      HeaderDeclares(p, h);
    } else {
      assert h[5] == 0xFF;
      assert h[4..6][1..] == [0xFF];
      LeValueOfTwo(h[4..6]);
    }
  }

  lemma LastByteCounts(b: seq<Byte>, b': seq<Byte>, tries: UInt32)
    requires |b| == |b'| == 4 && b[3] != b'[3]
    ensures LeValue(b) < 0x1_0000_0000 && LeValue(b') < 0x1_0000_0000
    ensures ToInt(Minus(LeValue(b), tries)) != ToInt(Minus(LeValue(b'), tries))
  {
    LeValueBelow32(b);
    LeValueBelow32(b');
    if LeValue(b) == LeValue(b') {
      LeValueInjective(b, b');
    }
  }

  // ---- what the actions achieve

  predicate IsPasswordCommand(c: Command) {
    c.Unlock? || c.ChangePassword? || c.DisableSecurity?
  }

  /** Whatever the link does, an action that reports success was accepted by the device: its password is
      right, unlocking has unlocked it, a change has set the new password, and removing has removed the
      zone. */
  lemma GuardedSuccess(n: Nature, s: State, stack: seq<Byte>, answer: bool, c: Command)
    requires |stack| == PROPERTY_0C_LEN && IsPasswordCommand(c)
    ensures var (s2, success, issued) := Guarded(n, s, stack, answer, c);
            success ==> issued && c.key == s.device.hash && Achieved(s.device, s2.device, c)
  {
    GateKeepsDevice(n, s, stack, answer);
    AskSuccess(n, Gate(n, s, stack, answer).0, c);
  }

  // What a password command does to a device that accepts it.
  predicate Achieved(d: Device, d': Device, c: Command)
    requires IsPasswordCommand(c)
  {
    match c
    case Unlock(key) => d'.unlocked && d'.hash == d.hash && d'.secured == d.secured
    case ChangePassword(key, newKey) => d'.hash == newKey && d'.unlocked == d.unlocked && d'.secured == d.secured
    case DisableSecurity(key) => d'.secured == 0 && d.secured == d.total && d'.hash == d.hash
  }

  lemma GateKeepsDevice(n: Nature, s: State, stack: seq<Byte>, answer: bool)
    requires |stack| == PROPERTY_0C_LEN
    ensures Gate(n, s, stack, answer).0.device == s.device
  {
    TriesLeftValue(n, s, stack);
  }

  lemma AskSuccess(n: Nature, s: State, c: Command)
    requires IsPasswordCommand(c)
    ensures var (s2, rc, result) := Ask(n, s, c);
            rc && result ==> Accepts(n, s.device, c.key) && Achieved(s.device, s2.device, c)
  {
  }

  /** On a reliable link, unlocking succeeds exactly with the right password, on a device that is not
      blocked, and on the last try only with the user's agreement. */
  lemma UnlockSucceeds(n: Nature, s: State, stack: seq<Byte>, answer: bool, key: seq<Byte>)
    requires |stack| == PROPERTY_0C_LEN && StatesLimit(n) && Reliable(n) && s.device.tries <= n.maxTries
    ensures Guarded(n, s, stack, answer, Command.Unlock(key)).1
       <==> key == s.device.hash && !Blocked(n, s.device) && (LastTry(n, s.device) ==> answer)
  {
    GateSound(n, s, stack, answer);
    var s1 := Gate(n, s, stack, answer).0;
    assert n.outcomes(|s1.issued|) == Completed;
  }

  /** Up to the gate the device is only asked for its counter and its limit. */
  lemma GateAsksOnly(n: Nature, s: State, stack: seq<Byte>, answer: bool)
    requires |stack| == PROPERTY_0C_LEN
    ensures var s1 := Gate(n, s, stack, answer).0;
            && s.issued <= s1.issued
            && forall i :: |s.issued| <= i < |s1.issued| ==>
                 s1.issued[i].DataInfo? || (s1.issued[i].ReadPage? && s1.issued[i].id == 0x0C)
  {
    var a := Exchange(n, s, DataInfo);
    InfoIssued(n, s);
    TransfersFit(n, a.state, PROPERTY_0C, stack, PROPERTY_0C_LEN);
  }

  lemma InfoIssued(n: Nature, s: State)
    ensures Exchange(n, s, DataInfo).state.issued == s.issued + [DataInfo]
  {
  }

  /** The command is issued exactly when the gate opens, and then it is the last one issued. */
  lemma GuardedIssues(n: Nature, s: State, stack: seq<Byte>, answer: bool, c: Command)
    requires |stack| == PROPERTY_0C_LEN
    ensures var (s1, open) := Gate(n, s, stack, answer);
            var (s2, success, issued) := Guarded(n, s, stack, answer, c);
            && (issued <==> open)
            && s2.issued == (if open then s1.issued + [c] else s1.issued)
            && (!open ==> !success && s2.device == s.device)
  {
    GateKeepsDevice(n, s, stack, answer);
    AskIssues(n, Gate(n, s, stack, answer).0, c);
  }

  lemma AskIssues(n: Nature, s: State, c: Command)
    ensures Ask(n, s, c).0.issued == s.issued + [c]
  {
  }

  /** The same for removing security, which moreover needs a zone that is the whole partition. */
  lemma DisableSucceeds(n: Nature, s: State, stack: seq<Byte>, answer: bool, key: seq<Byte>)
    requires |stack| == PROPERTY_0C_LEN && StatesLimit(n) && Reliable(n) && s.device.tries <= n.maxTries
    ensures Guarded(n, s, stack, answer, Command.DisableSecurity(key)).1
       <==> && key == s.device.hash && s.device.secured == s.device.total
            && !Blocked(n, s.device) && (LastTry(n, s.device) ==> answer)
  {
    GateSound(n, s, stack, answer);
    var s1 := Gate(n, s, stack, answer).0;
    assert n.outcomes(|s1.issued|) == Completed;
  }

  /** The same for changing the password. */
  lemma ChangeSucceeds(n: Nature, s: State, stack: seq<Byte>, answer: bool, key: seq<Byte>, newKey: seq<Byte>)
    requires |stack| == PROPERTY_0C_LEN && StatesLimit(n) && Reliable(n) && s.device.tries <= n.maxTries
    ensures Guarded(n, s, stack, answer, Command.ChangePassword(key, newKey)).1
       <==> key == s.device.hash && !Blocked(n, s.device) && (LastTry(n, s.device) ==> answer)
  {
    GateSound(n, s, stack, answer);
    var s1 := Gate(n, s, stack, answer).0;
    assert n.outcomes(|s1.issued|) == Completed;
  }

  /** After a successful change of the password, the new one unlocks. */
  lemma NewPasswordUnlocks(n: Nature, s: State, stack: seq<Byte>, answer: bool, key: seq<Byte>, newKey: seq<Byte>)
    requires |stack| == PROPERTY_0C_LEN && StatesLimit(n) && Reliable(n) && s.device.tries <= n.maxTries
    ensures var (s2, success, issued) := Guarded(n, s, stack, answer, Command.ChangePassword(key, newKey));
            success ==> Guarded(n, s2, stack, answer, Command.Unlock(newKey)).1
  {
    var c := Command.ChangePassword(key, newKey);
    var (s2, success, issued) := Guarded(n, s, stack, answer, c);
    if success {
      GuardedSuccess(n, s, stack, answer, c);
      GateSound(n, s, stack, answer);
      AskKeepsTries(n, Gate(n, s, stack, answer).0, c);
      UnlockSucceeds(n, s2, stack, answer, newKey);
    }
  }

  lemma AskKeepsTries(n: Nature, s: State, c: Command)
    requires IsPasswordCommand(c) && c.key == s.device.hash
    ensures var d := Ask(n, s, c).0.device; d.tries == s.device.tries || d.tries == 0
  {
  }

  // ---- all runs of the tool

  // One run of the tool: a guarded password command, or one of the two that need no password.
  datatype Action =
    | Password(c: Command, answer: bool, stack: seq<Byte>)
    | Secure(key: seq<Byte>)
    | Unsecure(key: seq<Byte>)

  predicate WellFormed(action: Action) {
    action.Password? ==> IsPasswordCommand(action.c) && |action.stack| == PROPERTY_0C_LEN
  }

  predicate Confirmed(action: Action) {
    action.Password? && action.answer
  }

  // u3_enable_security with the hash of a password.
  function Enable(n: Nature, s: State, key: seq<Byte>): (State, bool) {
    var a := Exchange(n, s, DataInfo);
    if !a.Ok() then (a.state, false)
    else
      var size := s.device.total;
      var (s1, ok, zone) := if size != 0 then Round(n, a.state, true, true, size) else (a.state, true, size);
      if !ok then (s1, false)
      else
        var a2 := Exchange(n, s1, Command.EnableSecurity(zone, key));
        (a2.state, a2.Ok())
  }

  // do_reset_security with the hash of the fixed password.
  function ResetSecurity(n: Nature, s: State, key: seq<Byte>): (State, bool) {
    var (s1, ok) := Enable(n, s, key);
    if !ok then (s1, false)
    else
      var (s2, rc, result) := Ask(n, s1, Command.DisableSecurity(key));
      (s2, rc && result)
  }

  function Perform(n: Nature, s: State, action: Action): State
    requires WellFormed(action)
  {
    match action
    case Password(c, answer, stack) => Guarded(n, s, stack, answer, c).0
    case Secure(key) => Enable(n, s, key).0
    case Unsecure(key) => ResetSecurity(n, s, key).0
  }

  function PerformAll(n: Nature, s: State, actions: seq<Action>): State
    requires forall i :: 0 <= i < |actions| ==> WellFormed(actions[i])
    decreases |actions|
  {
    if actions == [] then s else PerformAll(n, Perform(n, s, actions[0]), actions[1..])
  }

  lemma AskCounts(n: Nature, s: State, c: Command)
    requires IsPasswordCommand(c) && s.device.tries <= n.maxTries
    ensures var d := Ask(n, s, c).0.device;
            d.tries <= n.maxTries && (Blocked(n, d) ==> Blocked(n, s.device) || LastTry(n, s.device))
  {
  }

  // The counter when the data partition has been secured.
  function TriesAfter(n: Nature, d: Device): UInt32 {
    if n.securingClears then 0 else d.tries
  }

  lemma EnableKeepsLimit(n: Nature, s: State, key: seq<Byte>)
    requires s.device.tries <= n.maxTries
    ensures var (s1, ok) := Enable(n, s, key);
            && s1.device.tries <= n.maxTries
            && (Blocked(n, s1.device) ==> Blocked(n, s.device))
            && (ok ==> s1.device.tries == TriesAfter(n, s.device) && s1.device.hash == key
                       && s1.device.total == s.device.total)
  {
    var a := Exchange(n, s, DataInfo);
    DataInfoKeeps(n, s);
    if a.Ok() {
      var s1, zone := a.state, s.device.total;
      if s.device.total != 0 {
        RoundKeepsDevice(n, a.state, true, true, s.device.total);
        var r := Round(n, a.state, true, true, s.device.total);
        s1, zone := r.0, r.2;
      }
      SecureKeepsLimit(n, s1, zone, key);
    }
  }

  lemma SecureKeepsLimit(n: Nature, s: State, zone: UInt32, key: seq<Byte>)
    requires s.device.tries <= n.maxTries
    ensures var a := Exchange(n, s, Command.EnableSecurity(zone, key));
            && a.state.device.tries <= n.maxTries
            && (Blocked(n, a.state.device) ==> Blocked(n, s.device))
            && (a.Ok() ==> a.state.device.tries == TriesAfter(n, s.device) && a.state.device.hash == key
                           && a.state.device.total == s.device.total)
  {
  }

  /** One run keeps the counter within the limit, and blocks a device that was not blocked only by a
      last try that the user agreed to. */
  lemma PerformSafe(n: Nature, s: State, action: Action)
    requires WellFormed(action) && StatesLimit(n) && s.device.tries <= n.maxTries
    ensures var d := Perform(n, s, action).device;
            && d.tries <= n.maxTries
            && (Blocked(n, d) && !Blocked(n, s.device) ==> Confirmed(action) && LastTry(n, s.device))
  {
    match action
    case Password(c, answer, stack) =>
      GateSound(n, s, stack, answer);
      var (s1, open) := Gate(n, s, stack, answer);
      AskCounts(n, s1, c);
    case Secure(key) =>
      EnableKeepsLimit(n, s, key);
    case Unsecure(key) =>
      EnableKeepsLimit(n, s, key);
      var (s1, ok) := Enable(n, s, key);
      if ok {
        RightPasswordKeepsOpen(n, s1, key);
      }
  }

  lemma RightPasswordKeepsOpen(n: Nature, s: State, key: seq<Byte>)
    requires s.device.hash == key
    ensures Ask(n, s, Command.DisableSecurity(key)).0.device.tries <= s.device.tries
  {
  }

  /** Over all runs: as long as the user never confirms, the tool never blocks the device. */
  lemma {:induction false} NeverBlocksUnconfirmed(n: Nature, s: State, actions: seq<Action>)
    requires forall i :: 0 <= i < |actions| ==> WellFormed(actions[i]) && !Confirmed(actions[i])
    requires StatesLimit(n) && s.device.tries <= n.maxTries && !Blocked(n, s.device)
    ensures !Blocked(n, PerformAll(n, s, actions).device)
    decreases |actions|
  {
    if actions != [] {
      PerformSafe(n, s, actions[0]);
      NeverBlocksUnconfirmed(n, Perform(n, s, actions[0]), actions[1..]);
    }
  }

  // One run: a guarded password command is issued only to a device that is not blocked, and one on its
  // last try only with the user's agreement. The one behind no gate, at the end of a reset, goes out with
  // the device's own password, and to a device that securing has left open for tries.
  ghost predicate Gated(n: Nature, s: State, action: Action)
    requires WellFormed(action)
  {
    match action
    case Password(c, answer, stack) =>
      Guarded(n, s, stack, answer, c).2 ==> !Blocked(n, s.device) && (LastTry(n, s.device) ==> answer)
    case Secure(key) => true
    case Unsecure(key) =>
      var (s1, ok) := Enable(n, s, key);
      ok ==> s1.device.hash == key && (Blocked(n, s1.device) <==> TriesAfter(n, s.device) >= n.maxTries)
  }

  // Every run in a sequence of runs is gated.
  ghost predicate AlwaysGated(n: Nature, s: State, actions: seq<Action>)
    requires forall i :: 0 <= i < |actions| ==> WellFormed(actions[i])
    decreases |actions|
  {
    actions == [] ||
    (WellFormed(actions[0]) && Gated(n, s, actions[0]) && AlwaysGated(n, Perform(n, s, actions[0]), actions[1..]))
  }

  /** What one run does, and what a sequence of runs does: one after the other. */
  lemma PerformMeans(n: Nature, s: State, action: Action, rest: seq<Action>)
    requires WellFormed(action) && forall i :: 0 <= i < |rest| ==> WellFormed(rest[i])
    ensures action.Password? ==> Perform(n, s, action) == Guarded(n, s, action.stack, action.answer, action.c).0
    ensures action.Secure? ==> Perform(n, s, action) == Enable(n, s, action.key).0
    ensures action.Unsecure? ==> Perform(n, s, action) == ResetSecurity(n, s, action.key).0
    ensures PerformAll(n, s, []) == s
    ensures PerformAll(n, s, [action] + rest) == PerformAll(n, Perform(n, s, action), rest)
  {
    assert ([action] + rest)[1..] == rest;
  }

  /** What it means that a run is gated. */
  lemma GatedMeans(n: Nature, s: State, action: Action)
    requires WellFormed(action) && Gated(n, s, action)
    ensures action.Password? && Guarded(n, s, action.stack, action.answer, action.c).2 ==>
      !(s.device.tries >= n.maxTries) && (s.device.tries + 1 == n.maxTries ==> action.answer)
    ensures action.Unsecure? && Enable(n, s, action.key).1 ==>
      var d := Enable(n, s, action.key).0.device;
      d.hash == action.key && (d.tries >= n.maxTries <==> TriesAfter(n, s.device) >= n.maxTries)
  {
  }

  /** And that all runs are: each in the state that the ones before it lead to. */
  lemma {:induction false} AlwaysGatedMeans(n: Nature, s: State, actions: seq<Action>, i: nat)
    requires forall j :: 0 <= j < |actions| ==> WellFormed(actions[j])
    requires AlwaysGated(n, s, actions) && i < |actions|
    ensures Gated(n, PerformAll(n, s, actions[..i]), actions[i])
    decreases i
  {
    if i > 0 {
      AlwaysGatedMeans(n, Perform(n, s, actions[0]), actions[1..], i - 1);
      PerformMeans(n, s, actions[0], actions[1..i]);
      assert actions[..i] == [actions[0]] + actions[1..i];
      assert actions[1..][..i - 1] == actions[1..i];
    }
  }

  lemma PerformGated(n: Nature, s: State, action: Action)
    requires WellFormed(action) && StatesLimit(n) && s.device.tries <= n.maxTries
    ensures Gated(n, s, action)
  {
    match action
    case Password(c, answer, stack) =>
      GateSound(n, s, stack, answer);
    case Secure(key) =>
    case Unsecure(key) =>
      EnableKeepsLimit(n, s, key);
  }

  /** And whatever the user answers, no action with a password ever issues its command to a blocked device. */
  lemma {:induction false} RunsAreGated(n: Nature, s: State, actions: seq<Action>)
    requires forall i :: 0 <= i < |actions| ==> WellFormed(actions[i])
    requires StatesLimit(n) && s.device.tries <= n.maxTries
    ensures AlwaysGated(n, s, actions)
    ensures PerformAll(n, s, actions).device.tries <= n.maxTries
    decreases |actions|
  {
    if actions != [] {
      PerformGated(n, s, actions[0]);
      PerformSafe(n, s, actions[0]);
      RunsAreGated(n, Perform(n, s, actions[0]), actions[1..]);
    }
  }

  // ---- securing without a password

  method EnableSecurity(h: Handle, password: seq<Byte>) returns (rc: bool)
    requires |password| < 0x3FFF_FFFF
    modifies h`state
    ensures (h.state, rc) == Enable(h.nature, old(h.state), PassHash(password))
  {
    var dpInfo := new Byte[16];
    rc := DataPartitionInfo(h, dpInfo);
    if !rc {
      return;
    }
    PassTryField(old(h.state).device);
    assert dpInfo[0..4] == dpInfo[..][0..4];
    var secureZoneSize: UInt32 := LeValue(dpInfo[0..4]);
    if secureZoneSize != 0 {
      rc, secureZoneSize := SectorRound(h, true, true, secureZoneSize);
      if !rc {
        return;
      }
    }
    rc := SendZone(h, secureZoneSize, password);
  }

  // The packed struct with the size and the hash.
  method ZoneData(size: UInt32, password: seq<Byte>) returns (data: array<Byte>)
    requires |password| < 0x3FFF_FFFF
    ensures fresh(data) && data.Length == 20 && data[..20] == Le(size, 4) + PassHash(password)
  {
    data := new Byte[20];
    PutLe32(size, data, 0);
    ghost var head := data[..];
    assert head[..4] == Le(size, 4);
    PassToHash(password, data, 4);
    Framed(head, data[..], PassHash(password));
  }

  lemma Framed(head: seq<Byte>, data: seq<Byte>, key: seq<Byte>)
    requires |head| == 20 && |key| == 16 && data == head[..4] + key + head[20..]
    ensures data[..20] == head[..4] + key
  {
  }

  method SendZone(h: Handle, size: UInt32, password: seq<Byte>) returns (rc: bool)
    requires |password| < 0x3FFF_FFFF
    modifies h`state
    ensures var a := Exchange(h.nature, old(h.state), Command.EnableSecurity(size, PassHash(password)));
            h.state == a.state && rc == a.Ok()
  {
    var cmd := new Byte[12] [0xFF, 0xA2, 0x00, 0x00, 0x00, 0x00, 0x00, 0x00, 0x00, 0x00, 0x00, 0x00];
    var data := ZoneData(size, password);
    assert cmd[..] == BlockOf(Command.EnableSecurity(size, PassHash(password)));
    var ok, status := h.Send(cmd, ToDevice, 20, data, Command.EnableSecurity(size, PassHash(password)));
    rc := ok && status == 0;
  }

  const RESET_PASSWORD: seq<Byte> := [0x70, 0x61, 0x73, 0x73, 0x77, 0x6F, 0x72, 0x64]

  method DoResetSecurity(h: Handle) returns (success: bool)
    modifies h`state
    ensures (h.state, success) == ResetSecurity(h.nature, old(h.state), PassHash(RESET_PASSWORD))
    ensures RESET_PASSWORD == [0x70, 0x61, 0x73, 0x73, 0x77, 0x6F, 0x72, 0x64]
  {
    var rc := EnableSecurity(h, RESET_PASSWORD);
    if !rc {
      return false;
    }
    var result;
    rc, result := U3Commands.DisableSecurity(h, RESET_PASSWORD);
    success := rc && result;
  }

  /** Whatever the link does, a reset that reports success has left the device unsecured and unlocked. */
  lemma ResetSuccess(n: Nature, s: State, key: seq<Byte>)
    ensures var (s2, success) := ResetSecurity(n, s, key);
            success ==> s2.device.secured == 0 && s2.device.unlocked
  {
    DisableSuccess(n, Enable(n, s, key).0, key);
  }

  lemma DisableSuccess(n: Nature, s: State, key: seq<Byte>)
    ensures var (s2, rc, result) := Ask(n, s, Command.DisableSecurity(key));
            rc && result ==> s2.device.secured == 0 && s2.device.unlocked
  {
  }

  /** From every state of the device, locked or not, and on a reliable link: the reset succeeds exactly when
      the device allows a try after securing and rounding leaves the size of the data partition alone.
      So a blocked device can be reset exactly when securing clears its counter. */
  lemma ResetReaches(n: Nature, s: State, key: seq<Byte>)
    requires Reliable(n)
    ensures ResetSecurity(n, s, key).1
       <==> (if n.securingClears then n.maxTries > 0 else s.device.tries < n.maxTries)
            && (s.device.total == 0 || n.roundSecurity(s.device.total, true) == s.device.total)
  {
    EnableReaches(n, s, key);
    var (s1, ok) := Enable(n, s, key);
    assert n.outcomes(|s1.issued|) == Completed;
  }

  // The zone that securing asks for.
  function ZoneSize(n: Nature, d: Device): UInt32 {
    if d.total == 0 then 0 else n.roundSecurity(d.total, true)
  }

  lemma EnableReaches(n: Nature, s: State, key: seq<Byte>)
    requires Reliable(n)
    ensures var (s1, ok) := Enable(n, s, key);
            && ok && s1.device.hash == key && s1.device.tries == TriesAfter(n, s.device)
            && s1.device.total == s.device.total && s1.device.secured == ZoneSize(n, s.device)
  {
    var a := Exchange(n, s, DataInfo);
    assert n.outcomes(|s.issued|) == Completed && n.outcomes(|a.state.issued|) == Completed;
    if s.device.total != 0 {
      assert n.outcomes(|Round(n, a.state, true, true, s.device.total).0.issued|) == Completed;
    }
  }

  /** Whatever the link does, the only command of securing that changes the device goes out for exactly the
      rounded partition and the hash of the password, and a success means that it took effect. */
  lemma EnableExact(n: Nature, s: State, key: seq<Byte>, i: nat)
    ensures var (s1, ok) := Enable(n, s, key);
            && s.issued <= s1.issued
            && (|s.issued| <= i < |s1.issued| && s1.issued[i].EnableSecurity? ==>
                  s1.issued[i].key == key
                  && s1.issued[i].zone == if s.device.total == 0 then 0 else n.roundSecurity(s.device.total, true))
            && (ok ==> s1.device.hash == key && s1.device.secured == ZoneSize(n, s.device))
            && (!ok ==> s1.device == s.device || s1.issued[|s1.issued| - 1].EnableSecurity?)
  {
    var a := Exchange(n, s, DataInfo);
    DataInfoKeeps(n, s);
    if a.Ok() {
      var s1, zone := a.state, s.device.total;
      if s.device.total != 0 {
        var r := Round(n, a.state, true, true, s.device.total);
        RoundKeepsDevice(n, a.state, true, true, s.device.total);
        RoundMeans(n, a.state, true, true, s.device.total);
        RoundIssues(n, a.state, true, true, s.device.total);
        s1, zone := r.0, r.2;
      }
      ZoneSent(n, s1, zone, key);
    }
  }

  lemma ZoneSent(n: Nature, s: State, zone: UInt32, key: seq<Byte>)
    ensures var a := Exchange(n, s, Command.EnableSecurity(zone, key));
            && a.state.issued == s.issued + [Command.EnableSecurity(zone, key)]
            && (a.Ok() ==> a.state.device.hash == key && a.state.device.secured == zone)
  {
  }

  /** When it does not, the device is left secured with the fixed password over the rounded zone. */
  lemma ResetLeavesSecured(n: Nature, s: State, key: seq<Byte>)
    requires Reliable(n) && !ResetSecurity(n, s, key).1
    ensures var d := ResetSecurity(n, s, key).0.device;
            && d.hash == key && d.secured == ZoneSize(n, s.device) && d.total == s.device.total
            && (TriesAfter(n, s.device) < n.maxTries ==> d.secured != d.total)
  {
    EnableReaches(n, s, key);
    ResetReaches(n, s, key);
    var (s1, ok) := Enable(n, s, key);
    assert n.outcomes(|s1.issued|) == Completed;
  }
}
