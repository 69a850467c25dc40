/** Numbering of DTMF messages and recognition of the same tone detected twice. */
module Dtmf {
  import opened Options
  import opened ChannelTimers

  const TWO32: nat := 0x1_0000_0000

  /** How long after a tone its repetition by another detection method is a duplicate. */
  const DUPLICATE_TIME: nat := 4_000_000

  datatype Message = Message(isDtmf: bool, numbered: bool, text: Option<string>, detected: Option<string>, time: nat)

  /** What a channel remembers: the last number, and the tone it was given to. */
  datatype Memory = Memory(number: nat, until: nat, text: string, detected: string)

  const FORGETFUL := Memory(0, 0, "", "")

  predicate ToNumber(m: Message) {
    m.isDtmf && !m.numbered
  }

  predicate Repeats(s: Memory, m: Message) {
    m.text.Some? && m.detected.Some? && m.text.value == s.text && m.detected.value != s.detected && m.time < s.until
  }

  predicate IsNew(s: Memory, m: Message) {
    ToNumber(m) && !Repeats(s, m)
  }

  /** The memory after a message; a counter of 32 bits numbers the new tones. */
  function Remember(s: Memory, m: Message): Memory {
    if IsNew(s, m) then Memory((s.number + 1) % TWO32, m.time + DUPLICATE_TIME, Or(m.text, ""), Or(m.detected, ""))
    else s
  }

  function After(ms: seq<Message>): Memory {
    if ms == [] then FORGETFUL else Remember(After(ms[..|ms| - 1]), ms[|ms| - 1])
  }

  /** The number message k is given, and whether it is marked a duplicate. */
  function Number(ms: seq<Message>, k: nat): nat
    requires k < |ms|
  {
    After(ms[..k + 1]).number
  }

  predicate Duplicate(ms: seq<Message>, k: nat)
    requires k < |ms|
  {
    ToNumber(ms[k]) && Repeats(After(ms[..k]), ms[k])
  }

  // ----- Groups -----

  predicate Leads(ms: seq<Message>, k: nat)
    requires k < |ms|
  {
    ToNumber(ms[k]) && !Duplicate(ms, k)
  }

  /** How many new tones there are among the first n messages, and which is the last of them. */
  function Leaders(ms: seq<Message>, n: nat): nat
    requires n <= |ms|
  {
    if n == 0 then 0 else Leaders(ms, n - 1) + if Leads(ms, n - 1) then 1 else 0
  }

  function Leader(ms: seq<Message>, n: nat): (r: Option<nat>)
    requires n <= |ms|
    ensures r.Some? ==> r.value < n && Leads(ms, r.value)
    ensures r.None? <==> Leaders(ms, n) == 0
  {
    if n == 0 then None else if Leads(ms, n - 1) then Some(n - 1) else Leader(ms, n - 1)
  }

  /** What is remembered after n messages is the last new tone among them and how many there were. */
  lemma {:induction false} MemoryOfLeader(ms: seq<Message>, n: nat)
    requires n <= |ms|
    ensures var s, l := After(ms[..n]), Leader(ms, n);
            && s.number == Leaders(ms, n) % 0x1_0000_0000
            && (l.None? ==> s == FORGETFUL)
            && (l.Some? ==> s.text == Or(ms[l.value].text, "") && s.detected == Or(ms[l.value].detected, "")
                            && s.until == ms[l.value].time + 4_000_000)
  {
    if n > 0 {
      MemoryOfLeader(ms, n - 1);
      assert ms[..n][..n - 1] == ms[..n - 1];
    }
  }

  /** A message is a duplicate exactly when it has the text of the last new tone before it, was detected another
      way, and is stamped less than four seconds after it. */
  lemma DuplicateOfLeader(ms: seq<Message>, k: nat)
    requires k < |ms| && ToNumber(ms[k])
    ensures Duplicate(ms, k) <==>
            var l, m := Leader(ms, k), ms[k];
            && l.Some? && m.text.Some? && m.detected.Some?
            && m.text.value == Or(ms[l.value].text, "") && m.detected.value != Or(ms[l.value].detected, "")
            && m.time < ms[l.value].time + 4_000_000
  {
    MemoryOfLeader(ms, k);
  }

  lemma {:induction false} LeadersGrow(ms: seq<Message>, i: nat, j: nat)
    requires i <= j <= |ms|
    ensures Leaders(ms, i) <= Leaders(ms, j) <= j
    ensures Leaders(ms, i) == Leaders(ms, j) <==> forall k :: i <= k < j ==> !Leads(ms, k)
    ensures Leaders(ms, i) == Leaders(ms, j) ==> Leader(ms, i) == Leader(ms, j)
    decreases j
  {
    if i < j {
      LeadersGrow(ms, i, j - 1);
    } else if i > 0 {
      LeadersGrow(ms, i - 1, i - 1);
    }
  }

  lemma NumberIsLeaders(ms: seq<Message>, k: nat)
    requires k < |ms| < 0x1_0000_0000
    ensures Number(ms, k) == Leaders(ms, k + 1)
  {
    MemoryOfLeader(ms, k + 1);
    LeadersGrow(ms, k + 1, k + 1);
  }

  /** Numbers start at one and grow by one at every new tone, in any stream shorter than the counter's range. */
  lemma NumbersStep(ms: seq<Message>, k: nat)
    requires k < |ms| < 0x1_0000_0000 && ToNumber(ms[k])
    ensures Number(ms, k) == (if k == 0 then 0 else Number(ms, k - 1)) + if Duplicate(ms, k) then 0 else 1
    ensures Number(ms, k) >= 1
  {
    hide Number, After, Duplicate;
    NumberIsLeaders(ms, k);
    if k > 0 {
      NumberIsLeaders(ms, k - 1);
    }
    DuplicateOfLeader(ms, k);
  }

  /** Messages share a number exactly when they share the last new tone. */
  lemma SameNumber(ms: seq<Message>, i: nat, j: nat)
    requires i < j < |ms| < 0x1_0000_0000 && ToNumber(ms[i])
    ensures Number(ms, i) == Number(ms, j) <==> Leader(ms, i + 1) == Leader(ms, j + 1)
  {
    hide Number, After, Duplicate;
    NumberIsLeaders(ms, i);
    NumberIsLeaders(ms, j);
    LeadersGrow(ms, i + 1, j + 1);
    NumbersStep(ms, i);
    if Leader(ms, i + 1) == Leader(ms, j + 1) {
      SameLeader(ms, i + 1, j + 1);
    }
  }

  lemma {:induction false} SameLeader(ms: seq<Message>, m: nat, n: nat)
    requires m <= n <= |ms| && Leader(ms, m) == Leader(ms, n) && Leader(ms, m).Some?
    ensures Leaders(ms, m) == Leaders(ms, n)
  {
    hide Leads;
    if m < n {
      SameLeader(ms, m, n - 1);
    }
  }

  /** A message has the text of the tone that leads its group; unless it is that tone itself, it is marked a
      duplicate, was detected differently and is stamped less than four seconds after it. */
  lemma GroupOf(ms: seq<Message>, k: nat)
    requires k < |ms| && ToNumber(ms[k])
    ensures Leader(ms, k + 1).Some?
    ensures var l := Leader(ms, k + 1).value;
            && Or(ms[k].text, "") == Or(ms[l].text, "") && (Duplicate(ms, k) <==> k != l)
            && (k != l ==> Or(ms[k].detected, "") != Or(ms[l].detected, "") && ms[k].time < ms[l].time + 4_000_000)
  {
    DuplicateOfLeader(ms, k);
    hide After;
  }

  /** Numbers of the messages that are not duplicates, the only ones to be queued if duplicates are not allowed,
      grow strictly. */
  lemma NewNumbersGrow(ms: seq<Message>, i: nat, j: nat)
    requires i < j < |ms| < 0x1_0000_0000 && Leads(ms, i) && Leads(ms, j)
    ensures Number(ms, i) < Number(ms, j)
  {
    hide Number, Leads;
    NumberIsLeaders(ms, i);
    NumberIsLeaders(ms, j);
    LeadersGrow(ms, i + 1, j);
  }
}
