/**
 * ServiceTypeToString: the service type flag word rendered as the names of
 * its set flags joined by " | ", or as a decimal number when no tested flag is set.
 */
module ServiceType {
  import opened Win32
  import Decimal

  /** A flag ServiceTypeToString tests, with the name it appends. */
  datatype Flag = Flag(mask: bv32, name: string)

  const OwnProcessName := "SERVICE_WIN32_OWN_PROCESS"
  const ShareProcessName := "SERVICE_WIN32_SHARE_PROCESS"
  const KernelDriverName := "SERVICE_KERNEL_DRIVER"
  const FileSystemDriverName := "SERVICE_FILE_SYSTEM_DRIVER"
  const RecognizerDriverName := "SERVICE_RECOGNIZER_DRIVER"
  const Win32Name := "SERVICE_WIN32"
  const AdapterName := "SERVICE_ADAPTER"
  const DriverName := "SERVICE_DRIVER"
  const InteractiveProcessName := "SERVICE_INTERACTIVE_PROCESS"

  /** The separator put before every name after the first. */
  const Separator := " | "

  /** The text the accumulator starts with and keeps when bit 0x10 is clear. */
  const UnknownPrefix := "Unknown"

  /** The flags in the order ServiceTypeToString tests them. */
  const Checks: seq<Flag> := [
    Flag(ServiceWin32OwnProcess, OwnProcessName),
    Flag(ServiceWin32ShareProcess, ShareProcessName),
    Flag(ServiceKernelDriver, KernelDriverName),
    Flag(ServiceFileSystemDriver, FileSystemDriverName),
    Flag(ServiceRecognizerDriver, RecognizerDriverName),
    Flag(ServiceWin32, Win32Name),
    Flag(ServiceAdapter, AdapterName),
    Flag(ServiceDriver, DriverName),
    Flag(ServiceInteractiveProcess, InteractiveProcessName)
  ]

  /** The union of every tested mask: 0x13F. */
  const CheckedMask: bv32 := 0x13F

  /** The names of the flags among the first k of `flags` that t has set, in order. */
  function SetNames(t: bv32, flags: seq<Flag>, k: nat): seq<string>
    requires k <= |flags|
  {
    if k == 0 then []
    else SetNames(t, flags, k - 1) + (if IsSet(t, flags[k - 1].mask) then [flags[k - 1].name] else [])
  }

  /** Whether the flag word has any bit of the mask set (the source's `if (serviceType & FLAG)`). */
  predicate IsSet(t: bv32, mask: bv32) { t & mask != 0 }

  /** The parts joined by " | ". */
  function JoinPipe(parts: seq<string>): string
    decreases |parts|
  {
    if parts == [] then ""
    else if |parts| == 1 then parts[0]
    else JoinPipe(parts[..|parts| - 1]) + Separator + parts[|parts| - 1]
  }

  /** What the accumulator starts with: "Unknown" unless SERVICE_WIN32_OWN_PROCESS is set. */
  function Prefix(t: bv32): seq<string>
  {
    if IsSet(t, ServiceWin32OwnProcess) then [] else [UnknownPrefix]
  }

  /**
   * What the type line shows: the decimal value when no tested flag is set;
   * otherwise the set flags' names in test order, joined by " | ", after
   * "Unknown" when SERVICE_WIN32_OWN_PROCESS is clear.
   */
  function TypeText(t: bv32): string
  {
    if !IsSet(t, CheckedMask) then Decimal.Render(t as nat)
    else JoinPipe(Prefix(t) + SetNames(t, Checks, |Checks|))
  }

  lemma JoinPipeSnoc(parts: seq<string>, x: string)
    requires |parts| >= 1
    ensures JoinPipe(parts + [x]) == JoinPipe(parts) + Separator + x
  {
    assert (parts + [x])[..|parts|] == parts;
  }

  lemma {:induction false} JoinPipeHead(parts: seq<string>)
    requires |parts| >= 1
    ensures parts[0] <= JoinPipe(parts)
    ensures |parts| >= 2 ==> |JoinPipe(parts)| > |parts[0]|
    decreases |parts|
  {
    if |parts| >= 2 {
      JoinPipeHead(parts[..|parts| - 1]);
    }
  }

  /** A non-empty accumulator keeps its first entry as more names are collected. */
  lemma {:induction false} HeadKept(pre: seq<string>, t: bv32, flags: seq<Flag>, k: nat)
    requires k <= |flags|
    requires |pre + SetNames(t, flags, if k >= 1 then 1 else 0)| >= 1
    ensures |pre + SetNames(t, flags, k)| >= 1
    ensures k >= 1 ==> (pre + SetNames(t, flags, k))[0] == (pre + SetNames(t, flags, 1))[0]
  {
    if k > 1 {
      HeadKept(pre, t, flags, k - 1);
      var a := pre + SetNames(t, flags, k - 1);
      assert pre + SetNames(t, flags, k) == a + (if IsSet(t, flags[k - 1].mask) then [flags[k - 1].name] else []);
    }
  }

  /** One more test: appending " | name" when the flag is set extends the joined list by that name. */
  lemma Step(pre: seq<string>, t: bv32, flags: seq<Flag>, k: nat, acc: string)
    requires k < |flags|
    requires |pre + SetNames(t, flags, k)| >= 1
    requires acc == JoinPipe(pre + SetNames(t, flags, k))
    ensures |pre + SetNames(t, flags, k + 1)| >= 1
    ensures JoinPipe(pre + SetNames(t, flags, k + 1))
         == if IsSet(t, flags[k].mask) then acc + Separator + flags[k].name else acc
  {
    var p := pre + SetNames(t, flags, k);
    if IsSet(t, flags[k].mask) {
      assert pre + SetNames(t, flags, k + 1) == p + [flags[k].name];
      JoinPipeSnoc(p, flags[k].name);
    } else {
      assert pre + SetNames(t, flags, k + 1) == p;
    }
  }

  /** No name is collected exactly when none of the tested flags is set. */
  lemma {:induction false} SetNamesEmpty(t: bv32, flags: seq<Flag>, k: nat)
    requires k <= |flags|
    ensures SetNames(t, flags, k) == [] <==> forall j :: 0 <= j < k ==> !IsSet(t, flags[j].mask)
  {
    if k > 0 {
      SetNamesEmpty(t, flags, k - 1);
    }
  }

  lemma NoneSetIff(t: bv32)
    ensures !IsSet(t, CheckedMask) <==> forall j :: 0 <= j < |Checks| ==> !IsSet(t, Checks[j].mask)
  {
    var c := Checks;
    assert c[0].mask == 0x10 && c[1].mask == 0x20 && c[2].mask == 0x1 && c[3].mask == 0x2 && c[4].mask == 0x8;
    assert c[5].mask == 0x30 && c[6].mask == 0x4 && c[7].mask == 0xB && c[8].mask == 0x100;
    if t & CheckedMask == 0 {
      forall j | 0 <= j < |Checks| ensures !IsSet(t, Checks[j].mask) {
        assert Checks[j].mask & CheckedMask == Checks[j].mask;
        assert t & Checks[j].mask == (t & CheckedMask) & Checks[j].mask;
      }
    } else {
      assert t & 0x10 != 0 || t & 0x20 != 0 || t & 0x1 != 0 || t & 0x2 != 0 || t & 0x4 != 0
          || t & 0x8 != 0 || t & 0x100 != 0;
    }
  }

  /**
   * Renders the flag word the way the TYPE line of a status query shows it.
   * The first test replaces the accumulator; each later test appends " | name".
   */
  method ServiceTypeToString(serviceType: bv32) returns (result: string)
    ensures result == TypeText(serviceType)
  {
    ghost var pre := Prefix(serviceType);
    result := UnknownPrefix;
    if IsSet(serviceType, Checks[0].mask) {
      result := Checks[0].name;
    }
    FirstTest(serviceType, result);
    for k := 1 to |Checks|
      invariant |pre + SetNames(serviceType, Checks, k)| >= 1
      invariant result == JoinPipe(pre + SetNames(serviceType, Checks, k))
    {
      var flag := Checks[k];
      Step(pre, serviceType, Checks, k, result);
      if IsSet(serviceType, flag.mask) {
        result := result + Separator + flag.name;
      }
    }
    Fallback(serviceType, result);
    if result == UnknownPrefix {
      result := Decimal.Render(serviceType as nat);
    }
  }

  /** The first test leaves the accumulator holding one entry: SERVICE_WIN32_OWN_PROCESS or "Unknown". */
  lemma FirstTest(t: bv32, acc: string)
    requires acc == if IsSet(t, Checks[0].mask) then Checks[0].name else UnknownPrefix
    ensures |Prefix(t) + SetNames(t, Checks, 1)| >= 1
    ensures acc == JoinPipe(Prefix(t) + SetNames(t, Checks, 1))
  {
    if IsSet(t, ServiceWin32OwnProcess) {
      assert Prefix(t) + SetNames(t, Checks, 1) == [Checks[0].name];
    } else {
      assert Prefix(t) + SetNames(t, Checks, 1) == [UnknownPrefix];
    }
  }

  /** The accumulator equals "Unknown" exactly when no tested flag is set, and is then replaced by the decimal value. */
  lemma Fallback(t: bv32, acc: string)
    requires acc == JoinPipe(Prefix(t) + SetNames(t, Checks, |Checks|))
    ensures (if acc == UnknownPrefix then Decimal.Render(t as nat) else acc) == TypeText(t)
  {
    if IsSet(t, CheckedMask) {
      NotUnknown(t);
    } else {
      NoneSetIff(t);
      SetNamesEmpty(t, Checks, |Checks|);
    }
  }

  /** When some tested flag is set, the joined names start with 'S' or 'U' and are never the bare "Unknown". */
  lemma NotUnknown(t: bv32)
    requires IsSet(t, CheckedMask)
    ensures |JoinPipe(Prefix(t) + SetNames(t, Checks, |Checks|))| > 0
    ensures JoinPipe(Prefix(t) + SetNames(t, Checks, |Checks|)) != UnknownPrefix
    ensures JoinPipe(Prefix(t) + SetNames(t, Checks, |Checks|))[0] in {'S', 'U'}
  {
    var pre, c := Prefix(t), Checks;
    var parts := pre + SetNames(t, c, |c|);
    NoneSetIff(t);
    SetNamesEmpty(t, c, |c|);
    HeadKept(pre, t, c, |c|);
    JoinPipeHead(parts);
    if !IsSet(t, ServiceWin32OwnProcess) {
      assert |parts| >= 2;
    } else {
      assert parts[0] == OwnProcessName;
    }
  }

  /** The type text is a plain decimal number exactly when no tested bit (mask 0x13F) is set, and then it is the value itself. */
  lemma DecimalExactlyWhenNoFlag(t: bv32)
    ensures Decimal.AllDigits(TypeText(t)) <==> t & CheckedMask == 0
    ensures t & CheckedMask == 0 ==> TypeText(t) == Decimal.Render(t as nat)
  {
    if IsSet(t, CheckedMask) {
      NotUnknown(t);
    }
  }

  /** The text starts with "Unknown" exactly when some tested flag is set but SERVICE_WIN32_OWN_PROCESS (0x10) is not. */
  lemma UnknownPrefixExactly(t: bv32)
    ensures UnknownPrefix <= TypeText(t) <==> t & CheckedMask != 0 && t & ServiceWin32OwnProcess == 0
  {
    var pre, c := Prefix(t), Checks;
    if IsSet(t, CheckedMask) {
      var parts := pre + SetNames(t, c, |c|);
      NotUnknown(t);
      HeadKept(pre, t, c, |c|);
      JoinPipeHead(parts);
      if IsSet(t, ServiceWin32OwnProcess) {
        assert parts[0] == OwnProcessName;
        assert TypeText(t)[0] == 'S';
      }
    } else {
      var s := Decimal.Render(t as nat);
      assert Decimal.IsDigit(s[0]);
      if UnknownPrefix <= s {
        assert s[0] == 'U';
      }
    }
  }

  /** With distinct names, a flag's name is collected exactly when that flag is among the first k and set in t. */
  lemma {:induction false} NameCollectedIff(t: bv32, flags: seq<Flag>, k: nat, j: nat)
    requires k <= |flags| && j < |flags|
    requires forall a, b :: 0 <= a < b < |flags| ==> flags[a].name != flags[b].name
    ensures flags[j].name in SetNames(t, flags, k) <==> j < k && IsSet(t, flags[j].mask)
  {
    if k > 0 {
      NameCollectedIff(t, flags, k - 1, j);
    }
  }

  /** The tested flags have distinct names: their lengths and ninth characters already tell them apart. */
  lemma ChecksNamesDistinct()
    ensures forall a, b :: 0 <= a < b < |Checks| ==> Checks[a].name != Checks[b].name
  {
    var keys := [(25, 'W'), (27, 'W'), (21, 'K'), (26, 'F'), (25, 'R'), (13, 'W'), (15, 'A'), (14, 'D'), (27, 'I')];
    assert forall i :: 0 <= i < |Checks| ==> |Checks[i].name| > 8 && keys[i] == (|Checks[i].name|, Checks[i].name[8]);
    assert forall a, b :: 0 <= a < b < |keys| ==> keys[a] != keys[b];
  }

  /** Every tested flag's name is listed exactly when the flag is set. */
  lemma NameListedIff(t: bv32, j: nat)
    requires j < |Checks|
    ensures Checks[j].name in SetNames(t, Checks, |Checks|) <==> IsSet(t, Checks[j].mask)
  {
    ChecksNamesDistinct();
    NameCollectedIff(t, Checks, |Checks|, j);
  }
}
