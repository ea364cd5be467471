/** Text as the suite builds and parses it: decimal and hexadecimal rendering, and the
    right-hand splits it uses to take names and addresses apart again. */
module Text {
  import opened Wrappers

  predicate EndsWith(s: string, t: string) {
    |t| <= |s| && s[|s| - |t|..] == t
  }

  function Digit(d: nat): char
    requires d < 16
  {
    if d < 10 then ('0' as int + d) as char else ('a' as int + d - 10) as char
  }

  /** An f-string's rendering of a non-negative integer. */
  function Dec(n: nat): (s: string)
    ensures s != []
    ensures forall k :: 0 <= k < |s| ==> '0' <= s[k] <= '9'
  {
    if n < 10 then [Digit(n)] else Dec(n / 10) + [Digit(n % 10)]
  }

  /** `int(text)` on plain digits; anything else raises. */
  function ParseDec(s: string): Option<nat> {
    if s == [] then None
    else
      var c := s[|s| - 1];
      if !('0' <= c <= '9') then None
      else
        var d := c as int - '0' as int;
        if |s| == 1 then Some(d)
        else
          var high := ParseDec(s[..|s| - 1]);
          if high.None? then None else Some(10 * high.value + d)
  }

  lemma {:induction false} ParseUndoesDec(n: nat)
    ensures ParseDec(Dec(n)) == Some(n)
  {
    if n >= 10 {
      ParseUndoesDec(n / 10);
      assert Dec(n)[..|Dec(n)| - 1] == Dec(n / 10);
    }
  }

  lemma DecInjective(m: nat, n: nat)
    requires Dec(m) == Dec(n)
    ensures m == n
  {
    ParseUndoesDec(m);
    ParseUndoesDec(n);
  }

  /** `f"{n:02x}"` for one byte. */
  function Hex2(n: nat): string
    requires n < 256
  {
    [Digit(n / 16), Digit(n % 16)]
  }

  /** `int(text, 16)` on two digits, in lower case. */
  function ParseHex2(s: string): Option<nat> {
    if |s| != 2 then None
    else
      match (HexValue(s[0]), HexValue(s[1]))
      case (Some(high), Some(low)) => Some(16 * high + low)
      case _ => None
  }

  function HexValue(c: char): Option<nat> {
    if '0' <= c <= '9' then Some(c as nat - '0' as nat)
    else if 'a' <= c <= 'f' then Some(c as nat - 'a' as nat + 10)
    else None
  }

  lemma ParseUndoesHex2(n: nat)
    requires n < 256
    ensures ParseHex2(Hex2(n)) == Some(n)
  {
    assert HexValue(Digit(n / 16)) == Some(n / 16);
    assert HexValue(Digit(n % 16)) == Some(n % 16);
  }

  /** `s.rsplit(sep, 1)[0]`: the whole text when there is no separator. */
  function BeforeLast(s: string, sep: char): string {
    if s == [] then []
    else if s[|s| - 1] == sep then s[..|s| - 1]
    else
      var head := s[..|s| - 1];
      if sep in head then BeforeLast(head, sep) else s
  }

  /** What comes before the last separator, when it has one itself, is followed by a separator
      and no other. */
  lemma {:induction false} BeforeLastExact(s: string, sep: char)
    requires sep in BeforeLast(s, sep)
    ensures exists last :: s == BeforeLast(s, sep) + [sep] + last && sep !in last
  {
    var head := s[..|s| - 1];
    if s[|s| - 1] == sep {
      assert s == head + [sep] + [];
    } else if sep in head {
      BeforeLastExact(head, sep);
      var last :| head == BeforeLast(head, sep) + [sep] + last && sep !in last;
      assert s == BeforeLast(s, sep) + [sep] + (last + [s[|s| - 1]]);
    }
  }

  /** `s.rsplit(sep, 1)[1]`: an IndexError when there is no separator. */
  function AfterLast(s: string, sep: char): Option<string> {
    if s == [] then None
    else if s[|s| - 1] == sep then Some([])
    else
      var rest := AfterLast(s[..|s| - 1], sep);
      if rest.None? then None else Some(rest.value + [s[|s| - 1]])
  }

  lemma {:induction false} SplitLast(head: string, sep: char, last: string)
    requires sep !in last
    ensures BeforeLast(head + [sep] + last, sep) == head
    ensures AfterLast(head + [sep] + last, sep) == Some(last)
  {
    var s := head + [sep] + last;
    if last == [] {
      assert s[..|s| - 1] == head;
    } else {
      var shorter := last[..|last| - 1];
      assert s[..|s| - 1] == head + [sep] + shorter;
      assert s[|s| - 1] == last[|last| - 1];
      assert (head + [sep] + shorter)[|head|] == sep;
      SplitLast(head, sep, shorter);
      assert last == shorter + [last[|last| - 1]];
    }
  }
}
