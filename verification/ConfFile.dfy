/** Reading the RIC's address from the configuration file: src/util/conf_file.c.

    A C string is what stands in a buffer from a position up to the first NUL. The value is trimmed
    in place: the left trim moves a pointer, the right trim walks back from the end and writes a
    NUL, both without looking at where the value begins. */
module ConfFile {
  import opened E2apTypes

  const NUL := '\0'
  const NEEDLE := "NEAR_RIC_IP ="
  const BUFFER := 24
  const SHORTEST_IP := 7

  /** isspace in the C locale. */
  predicate IsSpace(c: char) {
    c == ' ' || c == '\t' || c == '\n' || c == '\U{B}' || c == '\U{C}' || c == '\r'
  }

  /** Space, and the codes 9 to 13: tab, line feed, vertical tab, form feed, carriage return. */
  lemma SpacesByCode(c: char)
    ensures IsSpace(c) <==> c as int == 32 || 9 <= c as int <= 13
  {
  }

  predicate Blank(s: string) {
    forall i :: 0 <= i < |s| ==> IsSpace(s[i])
  }

  // ---- C strings ----

  predicate Terminated(buf: seq<char>, from: nat) {
    exists i :: from <= i < |buf| && buf[i] == NUL
  }

  /** strlen, as a position. */
  function EndOf(buf: seq<char>, from: nat): (e: nat)
    requires Terminated(buf, from)
    ensures from <= e < |buf| && buf[e] == NUL && forall i :: from <= i < e ==> buf[i] != NUL
    decreases |buf| - from
  {
    if buf[from] == NUL then from else EndOf(buf, from + 1)
  }

  function CString(buf: seq<char>, from: nat): string
    requires Terminated(buf, from)
  {
    buf[from..EndOf(buf, from)]
  }

  lemma EndIs(buf: seq<char>, from: nat, e: nat)
    requires from <= e < |buf| && buf[e] == NUL && forall i :: from <= i < e ==> buf[i] != NUL
    ensures Terminated(buf, from) && EndOf(buf, from) == e
  {
  }

  predicate StandsAt(hay: string, needle: string, j: nat) {
    j + |needle| <= |hay| && hay[j..j + |needle|] == needle
  }

  function FindFrom(hay: string, needle: string, i: nat): (r: Option<nat>)
    requires i <= |hay|
    ensures r.Some? ==> i <= r.value && StandsAt(hay, needle, r.value)
    ensures r.Some? ==> forall j :: i <= j < r.value ==> !StandsAt(hay, needle, j)
    ensures r.None? ==> forall j :: i <= j ==> !StandsAt(hay, needle, j)
    decreases |hay| - i
  {
    if StandsAt(hay, needle, i) then Some(i)
    else if i == |hay| then None
    else FindFrom(hay, needle, i + 1)
  }

  /** strstr: the first place where the needle stands. */
  function Find(hay: string, needle: string): (r: Option<nat>)
    ensures r.Some? ==> StandsAt(hay, needle, r.value) && forall j :: 0 <= j < r.value ==> !StandsAt(hay, needle, j)
    ensures r.None? ==> forall j :: 0 <= j ==> !StandsAt(hay, needle, j)
  {
    FindFrom(hay, needle, 0)
  }

  // ---- Trimming ----

  function TrimLeft(s: string): string {
    if s != "" && IsSpace(s[0]) then TrimLeft(s[1..]) else s
  }

  function TrimRight(s: string): string {
    if s != "" && IsSpace(s[|s| - 1]) then TrimRight(s[..|s| - 1]) else s
  }

  function Trim(s: string): string {
    TrimRight(TrimLeft(s))
  }

  /** t is s without its leading and trailing white space. */
  predicate IsTrimmed(t: string) {
    t != "" ==> !IsSpace(t[0]) && !IsSpace(t[|t| - 1])
  }

  lemma {:induction false} TrimLeftDrops(s: string, k: nat)
    requires k <= |s| && Blank(s[..k]) && (k < |s| ==> !IsSpace(s[k]))
    ensures TrimLeft(s) == s[k..]
  {
    if k > 0 {
      assert IsSpace(s[..k][0]);
      assert s[1..][..k - 1] == s[..k][1..];
      TrimLeftDrops(s[1..], k - 1);
    }
  }

  lemma {:induction false} TrimRightDrops(s: string, k: nat)
    requires k <= |s| && Blank(s[k..]) && (k > 0 ==> !IsSpace(s[k - 1]))
    ensures TrimRight(s) == s[..k]
    decreases |s|
  {
    if k < |s| {
      assert IsSpace(s[k..][|s| - 1 - k]);
      assert s[..|s| - 1][k..] == s[k..][..|s| - 1 - k];
      TrimRightDrops(s[..|s| - 1], k);
      assert s[..|s| - 1][..k] == s[..k];
    }
  }

  lemma {:induction false} BlankTrimsToNothing(s: string)
    requires Blank(s)
    ensures TrimLeft(s) == "" && Trim(s) == ""
  {
    TrimLeftDrops(s, |s|);
    assert s[|s|..] == "";
  }

  /** Whatever way a string is cut into white space, a trimmed middle and white space, the middle is
      its trimming. */
  lemma TrimIsUnique(x: string, t: string, y: string)
    requires Blank(x) && Blank(y) && IsTrimmed(t)
    ensures Trim(x + t + y) == t
  {
    var s := x + t + y;
    if t == "" {
      BlankTrimsToNothing(s);
    } else {
      assert s[|x|] == t[0];
      assert s[..|x|] == x;
      TrimLeftDrops(s, |x|);
      assert s[|x|..] == t + y;
      assert (t + y)[|t|..] == y && (t + y)[|t| - 1] == t[|t| - 1];
      TrimRightDrops(t + y, |t|);
    }
  }

  lemma {:induction false} TrimLeftCuts(s: string) returns (x: string)
    ensures Blank(x) && s == x + TrimLeft(s) && (TrimLeft(s) != "" ==> !IsSpace(TrimLeft(s)[0]))
  {
    if s != "" && IsSpace(s[0]) {
      x := TrimLeftCuts(s[1..]);
      x := [s[0]] + x;
    } else {
      x := "";
    }
  }

  lemma {:induction false} TrimRightCuts(s: string) returns (y: string)
    ensures Blank(y) && s == TrimRight(s) + y && (TrimRight(s) != "" ==> !IsSpace(TrimRight(s)[|TrimRight(s)| - 1]))
    decreases |s|
  {
    if s != "" && IsSpace(s[|s| - 1]) {
      y := TrimRightCuts(s[..|s| - 1]);
      y := y + [s[|s| - 1]];
    } else {
      y := "";
    }
  }

  /** And there is such a cut. */
  lemma TrimCuts(s: string) returns (x: string, y: string)
    ensures Blank(x) && Blank(y) && IsTrimmed(Trim(s)) && s == x + Trim(s) + y
  {
    x := TrimLeftCuts(s);
    y := TrimRightCuts(TrimLeft(s));
    var t := Trim(s);
    if t != "" {
      assert TrimLeft(s)[0] == t[0];
    }
    assert s == x + t + y;
  }

  // ---- The trimming loops ----

  method Ltrim(buf: array<char>, s: nat) returns (p: nat)
    requires Terminated(buf[..], s)
    ensures Terminated(buf[..], p) && s <= p <= EndOf(buf[..], s) && EndOf(buf[..], p) == EndOf(buf[..], s)
    ensures CString(buf[..], p) == TrimLeft(CString(buf[..], s))
  {
    ghost var e := EndOf(buf[..], s);
    p := s;
    while IsSpace(buf[p])
      invariant s <= p <= e && forall i :: s <= i < p ==> IsSpace(buf[i])
      decreases e - p
    {
      p := p + 1;
    }
    EndIs(buf[..], p, e);
    ghost var v := CString(buf[..], s);
    assert v[..p - s] == buf[s..p];
    assert p < e ==> v[p - s] == buf[p];
    TrimLeftDrops(v, p - s);
    assert v[p - s..] == buf[p..e];
  }

  /** The walk of the right trim goes below the string at s: nothing there stops it. */
  predicate RunsBelow(buf: seq<char>, s: nat)
    requires s > 0 && Terminated(buf, s)
  {
    Blank(CString(buf, s)) && IsSpace(buf[s - 1])
  }

  lemma WalkEndsAt(buf: seq<char>, s: nat, back: nat)
    requires s > 0 && Terminated(buf, s) && back < EndOf(buf, s) && !IsSpace(buf[back])
    requires forall i :: back < i < EndOf(buf, s) ==> IsSpace(buf[i])
    ensures RunsBelow(buf, s) <==> back + 1 < s
    ensures back + 1 >= s ==> TrimRight(CString(buf, s)) == buf[s..back + 1]
  {
    var v, e := CString(buf, s), EndOf(buf, s);
    if back + 1 >= s {
      var k := back + 1 - s;
      assert v[k..] == buf[back + 1..e] && v[..k] == buf[s..back + 1];
      assert k > 0 ==> v[k - 1] == buf[back];
      TrimRightDrops(v, k);
    }
  }

  /** The walk starts at the end of the string at s and, when that string is blank, may run on below
      s. It stays above any character before s that is not white space. A blank string with white
      space in front of it is the one case in which the string at s is not trimmed, unless empty. */
  method Rtrim(buf: array<char>, s: nat, ghost bound: nat)
    requires Terminated(buf[..], s) && bound < s && !IsSpace(buf[bound])
    modifies buf
    ensures Terminated(buf[..], s)
    ensures CString(buf[..], s) == if old(RunsBelow(buf[..], s)) then old(CString(buf[..], s))
                                   else TrimRight(old(CString(buf[..], s)))
    ensures buf[..bound + 1] == old(buf[..bound + 1])
  {
    ghost var before, e := buf[..], EndOf(buf[..], s);
    var len := StrLen(buf, s);
    var back := s + len - 1;
    while IsSpace(buf[back])
      invariant bound <= back < e && forall i :: back < i < e ==> IsSpace(buf[i])
      decreases back
    {
      back := back - 1;
    }
    WalkEndsAt(before, s, back);
    buf[back + 1] := NUL;
    if back + 1 < s {
      EndIs(buf[..], s, e);
      assert buf[s..e] == before[s..e];
    } else {
      EndIs(buf[..], s, back + 1);
      assert buf[s..back + 1] == before[s..back + 1];
    }
  }

  /** The value of a line, if it holds the needle. */
  function ValueOf(line: string): Option<string> {
    match Find(line, NEEDLE)
    case None => None
    case Some(i) => Some(Trim(line[i + |NEEDLE|..]))
  }

  /** After the left trim the walk runs below the value only when the value is empty already. */
  lemma LeftTrimmedIsSafe(buf: seq<char>, p: nat)
    requires p > 0 && Terminated(buf, p) && CString(buf, p) == TrimLeft(CString(buf, p))
    ensures RunsBelow(buf, p) ==> CString(buf, p) == TrimRight(CString(buf, p)) == ""
  {
    if Blank(CString(buf, p)) {
      BlankTrimsToNothing(CString(buf, p));
    }
  }

  lemma {:induction false} TrimLeftTwice(s: string)
    ensures TrimLeft(TrimLeft(s)) == TrimLeft(s)
  {
    if s != "" && IsSpace(s[0]) {
      TrimLeftTwice(s[1..]);
    }
  }

  /** Left trim, then right trim, of what follows a character that is not white space. */
  method TrimAt(buf: array<char>, ans: nat) returns (r: string)
    requires Terminated(buf[..], ans) && ans > 0 && !IsSpace(buf[ans - 1])
    modifies buf
    ensures r == Trim(old(CString(buf[..], ans)))
    ensures buf[..ans] == old(buf[..ans])
  {
    var p := Ltrim(buf, ans);
    TrimLeftTwice(CString(buf[..], ans));
    LeftTrimmedIsSafe(buf[..], p);
    Rtrim(buf, p, ans - 1);
    var len := StrLen(buf, p);
    r := buf[p..p + len];
  }

  /** The line is a prefix, the needle for the first time, white space, the trimmed value, white space. */
  predicate IsValueOf(line: string, pre: string, x: string, v: string, y: string) {
    && line == pre + "NEAR_RIC_IP =" + x + v + y
    && (forall i :: 0 <= i < |x| ==> IsSpace(x[i])) && (forall i :: 0 <= i < |y| ==> IsSpace(y[i]))
    && (v != "" ==> !IsSpace(v[0]) && !IsSpace(v[|v| - 1]))
    && forall j :: 0 <= j < |pre| ==> !StandsAt(line, "NEAR_RIC_IP =", j)
  }

  lemma ValueCut(line: string) returns (pre: string, x: string, y: string)
    requires ValueOf(line).Some?
    ensures IsValueOf(line, pre, x, ValueOf(line).value, y)
  {
    var i := Find(line, NEEDLE).value;
    var rest := line[i + |NEEDLE|..];
    pre := line[..i];
    x, y := TrimCuts(rest);
    CutAt(line, NEEDLE, i, x, Trim(rest), y);
  }

  lemma CutAt(line: string, needle: string, i: nat, x: string, v: string, y: string)
    requires StandsAt(line, needle, i) && line[i + |needle|..] == x + v + y
    ensures line == line[..i] + needle + x + v + y
  {
    var head := line[..i] + needle;
    assert line == head + line[i + |needle|..];
    assert head + (x + v + y) == head + x + v + y;
  }

  /** Such a cut has only one value: the first needle is where it is, and trimming is unique. */
  lemma ValueIsUnique(line: string, pre: string, x: string, v: string, y: string)
    requires IsValueOf(line, pre, x, v, y)
    ensures ValueOf(line) == Some(v)
  {
    var i := |pre|;
    assert line[i..i + |NEEDLE|] == NEEDLE;
    assert StandsAt(line, NEEDLE, i);
    assert Find(line, NEEDLE) == Some(i);
    assert line[i + |NEEDLE|..] == x + v + y;
    TrimIsUnique(x, v, y);
  }

  /** One turn of the line loop, on the buffer getline has filled. */
  method TrimmedValue(buf: array<char>) returns (r: Option<string>)
    requires Terminated(buf[..], 0)
    modifies buf
    ensures r == ValueOf(old(CString(buf[..], 0)))
    ensures r.None? <==> forall j :: 0 <= j ==> !StandsAt(old(CString(buf[..], 0)), "NEAR_RIC_IP =", j)
    ensures r.Some? ==> exists pre, x, y :: IsValueOf(old(CString(buf[..], 0)), pre, x, r.value, y)
  {
    ghost var line := CString(buf[..], 0);
    var found := StrStr(buf, NEEDLE);
    if found.None? {
      return None;
    }
    ghost var pre, x, y := ValueCut(line);
    var ans := found.value + |NEEDLE|;
    BehindTheNeedle(buf[..], found.value);
    var v := TrimAt(buf, ans);
    r := Some(v);
  }

  lemma BehindTheNeedle(buf: seq<char>, i: nat)
    requires Terminated(buf, 0) && StandsAt(CString(buf, 0), NEEDLE, i)
    ensures var ans := i + |NEEDLE|;
            && ans <= EndOf(buf, 0) && Terminated(buf, ans) && CString(buf, ans) == CString(buf, 0)[ans..]
            && buf[ans - 1] == '='
  {
    var line, ans := CString(buf, 0), i + |NEEDLE|;
    EndIs(buf, ans, EndOf(buf, 0));
    assert line[i..ans][|NEEDLE| - 1] == '=';
  }

  // ---- Library calls, as loops ----

  method StrLen(buf: array<char>, from: nat) returns (n: nat)
    requires Terminated(buf[..], from)
    ensures from + n == EndOf(buf[..], from)
  {
    n := 0;
    while buf[from + n] != NUL
      invariant from + n <= EndOf(buf[..], from)
      decreases EndOf(buf[..], from) - n
    {
      n := n + 1;
    }
  }

  method StrStr(buf: array<char>, needle: string) returns (r: Option<nat>)
    requires Terminated(buf[..], 0)
    ensures r == Find(CString(buf[..], 0), needle)
  {
    ghost var hay := CString(buf[..], 0);
    var n := StrLen(buf, 0);
    var i := 0;
    while i + |needle| <= n
      invariant |hay| == n <= buf.Length && hay == buf[..n]
      invariant forall j :: 0 <= j < i ==> !StandsAt(hay, needle, j)
      decreases n - i
    {
      assert hay[i..i + |needle|] == buf[i..i + |needle|];
      if buf[i..i + |needle|] == needle {
        assert StandsAt(hay, needle, i);
        return Some(i);
      }
      i := i + 1;
    }
    r := None;
  }

  // ---- The file ----

  /** What the C string functions see of a line: a line may hold a NUL of its own. */
  function Visible(line: string): (v: string)
    ensures |v| <= |line| && v == line[..|v|] && NUL !in v && (|v| < |line| ==> line[|v|] == NUL)
  {
    if line == "" || line[0] == NUL then "" else [line[0]] + Visible(line[1..])
  }

  lemma {:induction false} VisibleIsCString(line: string)
    ensures Terminated(line + [NUL], 0) && CString(line + [NUL], 0) == Visible(line)
  {
    var v, buf := Visible(line), line + [NUL];
    assert buf[|v|] == NUL;
    forall i | 0 <= i < |v| ensures buf[i] != NUL {
      assert v[i] in v;
    }
    EndIs(buf, 0, |v|);
    assert buf[0..|v|] == v;
  }

  /** The value in the first line that has one; nothing but zeros is in the buffer otherwise. */
  function FirstValue(lines: seq<string>): string {
    if lines == [] then ""
    else match ValueOf(Visible(lines[0]))
      case Some(v) => v
      case None => FirstValue(lines[1..])
  }

  predicate HasNeedle(line: string) {
    Find(Visible(line), "NEAR_RIC_IP =").Some?
  }

  /** The value comes from the first line that holds the needle, as far as the string functions see it;
      without such a line it is empty. */
  lemma FirstValueMeans(lines: seq<string>, k: nat)
    requires k <= |lines| && forall i :: 0 <= i < k ==> !HasNeedle(lines[i])
    ensures k == |lines| ==> FirstValue(lines) == ""
    ensures k < |lines| && HasNeedle(lines[k]) ==>
              exists pre, x, y :: IsValueOf(Visible(lines[k]), pre, x, FirstValue(lines), y)
  {
    if k == |lines| {
      FirstValueIs(lines, k);
    } else if HasNeedle(lines[k]) {
      FirstValueIs(lines, k);
      var pre, x, y := ValueCut(Visible(lines[k]));
    }
  }

  lemma {:induction false} FirstValueIs(lines: seq<string>, k: nat)
    requires k <= |lines| && forall i :: 0 <= i < k ==> ValueOf(Visible(lines[i])) == None
    requires k < |lines| ==> ValueOf(Visible(lines[k])) != None
    ensures FirstValue(lines) == if k < |lines| then ValueOf(Visible(lines[k])).value else ""
  {
    if k > 0 {
      FirstValueIs(lines[1..], k - 1);
    }
  }

  /** `Overlong` is the failed assertion; `Unterminated` the case it lets through, in which the 24
      bytes are full and no NUL is left in them. */
  datatype Outcome = Ip(addr: string) | Exit | Overlong | Unterminated

  /** What comes of a value: the buffer holds it as a string exactly when it is shorter than 24. */
  function Judge(value: string, pton: string -> bool): Outcome {
    if |value| > BUFFER then Overlong
    else if |value| == BUFFER then Unterminated
    else if |value| >= SHORTEST_IP && pton(value) then Ip(value)
    else Exit
  }

  method CopyToBuffer(value: string) returns (ipAddr: array<char>)
    requires |value| <= BUFFER && NUL !in value
    ensures ipAddr.Length == 24 && fresh(ipAddr)
    ensures Terminated(ipAddr[..], 0) <==> |value| < 24
    ensures |value| < 24 ==> CString(ipAddr[..], 0) == value
  {
    ipAddr := new char[BUFFER](_ => NUL);
    for i := 0 to |value|
      invariant forall j :: 0 <= j < BUFFER ==> ipAddr[j] == if j < i then value[j] else NUL
    {
      ipAddr[i] := value[i];
    }
    forall j | 0 <= j < |value| ensures ipAddr[j] != NUL {
      assert value[j] in value;
    }
    if |value| < BUFFER {
      EndIs(ipAddr[..], 0, |value|);
    }
  }

  lemma TrimmedHasNoNul(line: string)
    requires NUL !in line && ValueOf(line).Some?
    ensures NUL !in ValueOf(line).value
  {
    var i := Find(line, NEEDLE).value;
    var rest := line[i + |NEEDLE|..];
    assert NUL !in rest;
    var x, y := TrimCuts(rest);
    assert forall c :: c in Trim(rest) ==> c in x + Trim(rest) + y;
  }

  /** The loop over the lines; it stops at the first line with a value. */
  method ReadValue(lines: seq<string>) returns (value: string)
    ensures value == FirstValue(lines) && NUL !in value
  {
    for k := 0 to |lines|
      invariant forall i :: 0 <= i < k ==> ValueOf(Visible(lines[i])) == None
    {
      var line := lines[k] + [NUL];
      var buf := new char[|line|](i requires 0 <= i < |line| => line[i]);
      assert buf[..] == line;
      VisibleIsCString(lines[k]);
      var ans := TrimmedValue(buf);
      if ans.Some? {
        TrimmedHasNoNul(Visible(lines[k]));
        FirstValueIs(lines, k);
        return ans.value;
      }
    }
    FirstValueIs(lines, |lines|);
    value := "";
  }

  /** get_near_ric_ip. `serverIp` is the fast path, `pton` the verdict of inet_pton. */
  method GetNearRicIp(serverIp: Option<string>, lines: seq<string>, pton: string -> bool) returns (r: Outcome)
    ensures r == if serverIp.Some? then Ip(serverIp.value) else Judge(FirstValue(lines), pton)
    ensures serverIp.Some? ==> r == Ip(serverIp.value)
    ensures var v := FirstValue(lines);
            serverIp.None? ==>
              && (r == Ip(v) <==> 7 <= |v| < 24 && pton(v))
              && (r == Exit <==> |v| < 24 && (|v| < 7 || !pton(v)))
              && (r == Unterminated <==> |v| == 24)
              && (r == Overlong <==> |v| > 24)
              && (r.Ip? ==> r.addr == v && pton(r.addr))
  {
    if serverIp.Some? {
      return Ip(serverIp.value);
    }
    var value := ReadValue(lines);
    if |value| > BUFFER {
      return Overlong;
    }
    var ipAddr := CopyToBuffer(value);
    if |value| == BUFFER {
      return Unterminated;
    }
    var n := StrLen(ipAddr, 0);
    assert ipAddr[0..n] == value;
    r := if n >= SHORTEST_IP && pton(ipAddr[0..n]) then Ip(ipAddr[0..n]) else Exit;
  }
}
