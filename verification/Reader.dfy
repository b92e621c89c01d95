/**
  `parseIJson` as the source runs it (conformance/src/lib/jcs.ts): one cursor over the
  text, moved by nested readers. Each reader is proved to compute the function of module
  `Jcs` that says what the rest of the text reads as.
 */
module Reader {
  import opened Wrappers
  import opened Json
  import Utf
  import Jcs

  /** `r` and the cursor are what `spec` says: a value and the text after it, or a refusal. */
  predicate Agrees<T(==)>(r: Result<T, Jcs.Refusal>, left: string, spec: Result<(T, string), Jcs.Refusal>) {
    match spec
    case Ok(p) => r == Ok(p.0) && left == p.1
    case Err(e) => r == Err(e)
  }

  class Cursor {
    const nums: Jcs.Numbers
    const text: string
    var i: nat

    constructor (nums: Jcs.Numbers, text: string)
      ensures this.nums == nums && this.text == text && i == 0
    {
      this.nums, this.text, i := nums, text, 0;
    }

    function Left(): string
      requires i <= |text|
      reads this
    {
      text[i..]
    }

    method SkipSpace()
      requires i <= |text|
      modifies this`i
      ensures old(i) <= i <= |text| && Left() == Jcs.SkipSpace(old(Left()))
    {
      while i < |text| && (text[i] == ' ' || text[i] == '\t' || text[i] == '\n' || text[i] == '\r')
        invariant old(i) <= i <= |text| && Jcs.SkipSpace(Left()) == Jcs.SkipSpace(old(Left()))
      {
        i := i + 1;
      }
    }

    method ReadString() returns (r: Result<string, Jcs.Refusal>)
      requires i <= |text|
      modifies this`i
      ensures old(i) <= i <= |text| && Agrees(r, Left(), Jcs.ParseString(old(Left())))
      ensures r.Ok? ==> old(i) < i
    {
      if i == |text| || text[i] != '"' { return Err(Jcs.NotJson); }
      i := i + 1;
      var out: seq<Utf.Unit> := [];
      while true
        invariant old(i) < i <= |text| && Jcs.ScanString(Left(), out) == Jcs.ParseString(old(Left()))
        decreases |text| - i
      {
        if i >= |text| { return Err(Jcs.NotJson); }
        var c := text[i];
        i := i + 1;
        if c == '"' { break; }
        if c == '\\' {
          var e := ReadEscape();
          if e.None? { return Err(Jcs.NotJson); }
          out := out + e.value;
        } else {
          if c < ' ' { return Err(Jcs.NotJson); }
          out := out + Utf.UnitsOf(c as int);
        }
      }
      if !Utf.WellFormed(out) { return Err(Jcs.LoneSurrogate); }
      r := Ok(Jcs.Chars(Utf.ToScalars(out)));
    }

    method ReadEscape() returns (r: Option<seq<Utf.Unit>>)
      requires i <= |text|
      modifies this`i
      ensures old(i) <= i <= |text| && r.Some? == Jcs.AfterBackslash(old(Left())).Some?
      ensures r.Some? ==> old(i) < i && Jcs.AfterBackslash(old(Left())) == Some((r.value, Left()))
    {
      if i == |text| { return None; }
      var e := text[i];
      if e == 'u' {
        if |text| < i + 5 { return None; }
        var h := text[i + 1..i + 5];
        assert h == text[i..][1..5];
        if Jcs.CodeUnit(h).None? { return None; }
        i := i + 5;
        return Some([Jcs.CodeUnit(h).value]);
      }
      i := i + 1;
      if Jcs.Unescaped(e).None? { return None; }
      r := Some(Utf.UnitsOf(Jcs.Unescaped(e).value as int));
    }

    method ReadNumber() returns (r: Result<Json, Jcs.Refusal>)
      requires i <= |text|
      modifies this`i
      ensures old(i) <= i <= |text| && Agrees(r, Left(), Jcs.ParseNumber(nums, true, old(Left())))
      ensures r.Ok? ==> old(i) < i
    {
      var m := Jcs.MatchNumber(text[i..]);
      if m.None? { return Err(Jcs.NotJson); }
      var lit := text[i..i + m.value.all];
      assert lit == text[i..][..m.value.all];
      i := i + m.value.all;
      var n := Jcs.ReadNumber(nums, true, lit);
      r := if n.Ok? then Ok(Num(n.value)) else Err(n.error);
    }

    method ReadValue() returns (r: Result<Json, Jcs.Refusal>)
      requires i <= |text|
      modifies this`i
      ensures old(i) <= i <= |text| && Agrees(r, Left(), Jcs.ParseValue(nums, true, old(Left())))
      ensures r.Ok? ==> old(i) < i
      decreases |text| - i, 1
    {
      SkipSpace();
      if i == |text| { return Err(Jcs.NotJson); }
      if text[i] == '{' {
        r := ReadObject();
      } else if text[i] == '[' {
        r := ReadArray();
      } else if text[i] == '"' {
        var s := ReadString();
        r := if s.Ok? then Ok(Str(s.value)) else Err(s.error);
      } else if "true" <= text[i..] {
        i := i + 4;
        r := Ok(Bool(true));
      } else if "false" <= text[i..] {
        i := i + 5;
        r := Ok(Bool(false));
      } else if "null" <= text[i..] {
        i := i + 4;
        r := Ok(Null);
      } else if text[i] == '-' || Jcs.IsDigit(text[i]) {
        r := ReadNumber();
      } else {
        r := Err(Jcs.NotJson);
      }
    }

    method ReadObject() returns (r: Result<Json, Jcs.Refusal>)
      requires i < |text| && text[i] == '{'
      modifies this`i
      ensures old(i) < i <= |text| && Agrees(r, Left(), Jcs.ParseValue(nums, true, old(Left())))
      decreases |text| - i, 0
    {
      i := i + 1;
      Jcs.SkipSpaceTwice(Left());
      SkipSpace();
      if i < |text| && text[i] == '}' {
        i := i + 1;
        return Ok(Obj([]));
      }
      r := ReadMembers();
    }

    method ReadMembers() returns (r: Result<Json, Jcs.Refusal>)
      requires i <= |text|
      modifies this`i
      ensures old(i) <= i <= |text| && Agrees(r, Left(), Jcs.ParseMembers(nums, true, old(Left()), []))
      decreases |text| - i, 3
    {
      var obj: seq<Member> := [];
      while true
        invariant old(i) <= i <= |text|
        invariant Jcs.ParseMembers(nums, true, Left(), obj) == Jcs.ParseMembers(nums, true, old(Left()), [])
        decreases |text| - i
      {
        var m := ReadMember(obj);
        if m.Err? { return Err(m.error); }
        obj := obj + [m.value];
        var closed := ReadDelimiter('}');
        if closed.None? { return Err(Jcs.NotJson); }
        if closed.value { return Ok(Obj(obj)); }
      }
    }

    method ReadMember(obj: seq<Member>) returns (r: Result<Member, Jcs.Refusal>)
      requires i <= |text|
      modifies this`i
      ensures old(i) <= i <= |text|
      ensures r.Ok? ==> old(i) < i
                        && Jcs.ParseMembers(nums, true, old(Left()), obj)
                           == Jcs.AfterMember(nums, true, Left(), obj + [r.value])
      ensures r.Err? ==> Jcs.ParseMembers(nums, true, old(Left()), obj) == Err(r.error)
      decreases |text| - i, 2
    {
      var k := ReadName(obj);
      if k.Err? { return Err(k.error); }
      var v := ReadValue();
      r := if v.Ok? then Ok(Member(k.value, v.value)) else Err(v.error);
    }

    method ReadName(obj: seq<Member>) returns (r: Result<string, Jcs.Refusal>)
      requires i <= |text|
      modifies this`i
      ensures old(i) <= i <= |text|
      ensures r.Ok? ==> old(i) < i
                        && Jcs.ParseMembers(nums, true, old(Left()), obj)
                           == Jcs.AfterName(nums, true, Left(), r.value, obj)
      ensures r.Err? ==> Jcs.ParseMembers(nums, true, old(Left()), obj) == Err(r.error)
    {
      SkipSpace();
      r := ReadString();
      if r.Err? { return; }
      if r.value in Keys(obj) { return Err(Jcs.DuplicateName); }
      SkipSpace();
      if i == |text| || text[i] != ':' { return Err(Jcs.NotJson); }
      i := i + 1;
    }

    /** Whether the closing bracket is next, or a comma. */
    method ReadDelimiter(close: char) returns (r: Option<bool>)
      requires i <= |text|
      modifies this`i
      ensures old(i) <= i <= |text| && r.Some? == Jcs.Delimiter(old(Left()), close).Some?
      ensures r.Some? ==> old(i) < i && Jcs.Delimiter(old(Left()), close) == Some((r.value, Left()))
    {
      SkipSpace();
      if i == |text| { return None; }
      var d := text[i];
      i := i + 1;
      r := if d == close then Some(true) else if d == ',' then Some(false) else None;
    }

    method ReadArray() returns (r: Result<Json, Jcs.Refusal>)
      requires i < |text| && text[i] == '['
      modifies this`i
      ensures old(i) < i <= |text| && Agrees(r, Left(), Jcs.ParseValue(nums, true, old(Left())))
      decreases |text| - i, 0
    {
      i := i + 1;
      Jcs.BracketOpens(nums, old(Left()));
      SkipSpace();
      if i < |text| && text[i] == ']' {
        i := i + 1;
        return Ok(Arr([]));
      }
      r := ReadItems();
    }

    method ReadItems() returns (r: Result<Json, Jcs.Refusal>)
      requires i <= |text|
      modifies this`i
      ensures old(i) <= i <= |text| && Agrees(r, Left(), Jcs.ParseItems(nums, true, old(Left()), []))
      decreases |text| - i, 3
    {
      var arr: seq<Json> := [];
      while true
        invariant old(i) <= i <= |text|
        invariant Jcs.ParseItems(nums, true, Left(), arr) == Jcs.ParseItems(nums, true, old(Left()), [])
        decreases |text| - i
      {
        var v := ReadItem(arr);
        if v.Err? { return v; }
        arr := arr + [v.value];
        var closed := ReadDelimiter(']');
        if closed.None? { return Err(Jcs.NotJson); }
        if closed.value { return Ok(Arr(arr)); }
      }
    }

    method ReadItem(arr: seq<Json>) returns (r: Result<Json, Jcs.Refusal>)
      requires i <= |text|
      modifies this`i
      ensures old(i) <= i <= |text|
      ensures r.Ok? ==> old(i) < i
                        && Jcs.ParseItems(nums, true, old(Left()), arr)
                           == Jcs.AfterItem(nums, true, Left(), arr + [r.value])
      ensures r.Err? ==> Jcs.ParseItems(nums, true, old(Left()), arr) == Err(r.error)
      decreases |text| - i, 2
    {
      r := ReadValue();
    }
  }

  method ParseIJson(nums: Jcs.Numbers, text: string) returns (r: Result<Json, Jcs.Refusal>)
    ensures r == Jcs.Parse(nums, true, text)
  {
    var cursor := new Cursor(nums, text);
    assert cursor.Left() == text;
    var v := cursor.ReadValue();
    if v.Err? { return v; }
    cursor.SkipSpace();
    r := if cursor.i == |text| then v else Err(Jcs.NotJson);
  }
}
