/**
  Line layout of the output table: fields joined by single tabs with no
  leading or trailing tab, and integers written in decimal. Split and ParseInt
  read a line back, so that the layout can be stated as a round trip.
*/
module Layout {

  predicate NoTab(s: string) {
    '\t' !in s
  }

  /** The fields separated by single tabs. */
  function Join(fields: seq<string>): (line: string) {
    if |fields| == 0 then ""
    else if |fields| == 1 then fields[0]
    else fields[0] + "\t" + Join(fields[1..])
  }

  /** The tab-separated fields of a line; a line without tabs is one field. */
  function Split(line: string): (fields: seq<string>)
    ensures |fields| >= 1
  {
    if line == [] then
      [""]
    else
      var rest := Split(line[1..]);
      if line[0] == '\t' then [""] + rest else [[line[0]] + rest[0]] + rest[1..]
  }

  /** The number of tabs in a line. */
  function Tabs(line: string): (count: nat) {
    if line == [] then 0 else (if line[0] == '\t' then 1 else 0) + Tabs(line[1..])
  }

  lemma {:induction false} JoinSnoc(fields: seq<string>, x: string)
    requires |fields| >= 1
    ensures Join(fields + [x]) == Join(fields) + "\t" + x
  {
    if |fields| == 1 {
      assert fields + [x] == [fields[0], x];
      assert [fields[0], x][1..] == [x];
    } else {
      assert (fields + [x])[1..] == fields[1..] + [x];
      JoinSnoc(fields[1..], x);
    }
  }

  lemma {:induction false} SplitNoTab(f: string)
    requires NoTab(f)
    ensures Split(f) == [f]
  {
    if f != [] {
      SplitNoTab(f[1..]);
      assert f == [f[0]] + f[1..];
    }
  }

  lemma {:induction false} SplitField(f: string, r: string)
    requires NoTab(f)
    ensures Split(f + "\t" + r) == [f] + Split(r)
  {
    if f == [] {
      assert f + "\t" + r == "\t" + r;
      assert ("\t" + r)[1..] == r;
    } else {
      assert (f + "\t" + r)[1..] == f[1..] + "\t" + r;
      SplitField(f[1..], r);
      assert f == [f[0]] + f[1..];
    }
  }

  /** Reading a written line back yields the fields that were written, one per
      field and in order, provided no field itself contains a tab. */
  lemma {:induction false} SplitJoin(fields: seq<string>)
    requires |fields| >= 1
    requires forall i :: 0 <= i < |fields| ==> NoTab(fields[i])
    ensures Split(Join(fields)) == fields
  {
    if |fields| == 1 {
      SplitNoTab(fields[0]);
    } else {
      SplitJoin(fields[1..]);
      SplitField(fields[0], Join(fields[1..]));
      assert fields == [fields[0]] + fields[1..];
    }
  }

  lemma {:induction false} TabsAppend(a: string, b: string)
    ensures Tabs(a + b) == Tabs(a) + Tabs(b)
  {
    if a == [] {
      assert a + b == b;
    } else {
      assert (a + b)[1..] == a[1..] + b;
      TabsAppend(a[1..], b);
    }
  }

  lemma {:induction false} NoTabHasNoTabs(f: string)
    requires NoTab(f)
    ensures Tabs(f) == 0
  {
    if f != [] {
      NoTabHasNoTabs(f[1..]);
    }
  }

  /** A line of n tab-free fields holds exactly n - 1 tabs. */
  lemma {:induction false} JoinTabs(fields: seq<string>)
    requires |fields| >= 1
    requires forall i :: 0 <= i < |fields| ==> NoTab(fields[i])
    ensures Tabs(Join(fields)) == |fields| - 1
  {
    NoTabHasNoTabs(fields[0]);
    if |fields| > 1 {
      JoinTabs(fields[1..]);
      TabsAppend(fields[0] + "\t", Join(fields[1..]));
      TabsAppend(fields[0], "\t");
    }
  }

  /** Writes the fields of one line, a tab before every field but the first. */
  method WriteFields(fields: seq<string>) returns (line: string)
    ensures line == Join(fields)
  {
    line := "";
    var i := 0;
    while i < |fields|
      invariant 0 <= i <= |fields|
      invariant line == Join(fields[..i])
    {
      if i > 0 {
        line := line + "\t";
        JoinSnoc(fields[..i], fields[i]);
      }
      assert fields[..i + 1] == fields[..i] + [fields[i]];
      line := line + fields[i];
      i := i + 1;
    }
    assert fields[..i] == fields;
  }

  predicate IsDigit(c: char) {
    '0' <= c <= '9'
  }

  function DigitChar(d: nat): (c: char)
    requires d < 10
    ensures IsDigit(c) && DigitValue(c) == d
  {
    ('0' as int + d) as char
  }

  function DigitValue(c: char): (d: nat)
    requires IsDigit(c)
  {
    c as int - '0' as int
  }

  /** The decimal digits of n, most significant first. */
  function Digits(n: nat): (s: string)
    ensures |s| >= 1
    ensures forall i :: 0 <= i < |s| ==> IsDigit(s[i])
  {
    if n < 10 then [DigitChar(n)] else Digits(n / 10) + [DigitChar(n % 10)]
  }

  /** n as the output stream writes an integer: a '-' for a negative value,
      then its decimal digits. */
  function Decimal(n: int): (text: string) {
    if n < 0 then "-" + Digits(-n) else Digits(n)
  }

  function ParseDigits(s: string): (n: nat)
    requires forall i :: 0 <= i < |s| ==> IsDigit(s[i])
  {
    if s == [] then 0 else 10 * ParseDigits(s[..|s| - 1]) + DigitValue(s[|s| - 1])
  }

  /** Reads back an integer written by Decimal. */
  function ParseInt(s: string): (n: int)
    requires |s| >= 1
    requires forall i :: 0 <= i < |s| ==> IsDigit(s[i]) || (i == 0 && s[i] == '-')
  {
    if s[0] == '-' then -(ParseDigits(s[1..]) as int) else ParseDigits(s)
  }

  lemma {:induction false} ParseDigitsInverts(n: nat)
    ensures ParseDigits(Digits(n)) == n
  {
    if n >= 10 {
      var s := Digits(n);
      assert s[..|s| - 1] == Digits(n / 10);
      ParseDigitsInverts(n / 10);
    }
  }

  /** A written integer is a non-empty tab-free field that reads back as the
      same integer. */
  lemma DecimalRoundTrip(n: int)
    ensures |Decimal(n)| >= 1 && NoTab(Decimal(n))
    ensures forall i :: 0 <= i < |Decimal(n)| ==> IsDigit(Decimal(n)[i]) || (i == 0 && Decimal(n)[i] == '-')
    ensures ParseInt(Decimal(n)) == n
  {
    if n < 0 {
      ParseDigitsInverts(-n);
      assert ("-" + Digits(-n))[1..] == Digits(-n);
    } else {
      ParseDigitsInverts(n);
    }
    var s := Decimal(n);
    assert forall i :: 0 <= i < |s| ==> s[i] != '\t' by {
      forall i | 0 <= i < |s| ensures s[i] != '\t' {
        if n < 0 && i == 0 {
          assert s[i] == '-';
        } else if n < 0 {
          assert s[i] == Digits(-n)[i - 1];
        }
      }
    }
  }
}
