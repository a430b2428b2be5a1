/** The parser object with its moving index (internal/bencode/parser.go). Each method
    is specified by the parsing function of the same name in Bencode. */
module BencodeParser {
  import opened ByteStrings
  import opened Bencode

  class Parser {
    const data: Bytes
    var index: nat
    var limits: Limits

    ghost predicate Valid()
      reads this
    {
      index <= |data|
    }

    constructor (data: Bytes)
      ensures Valid() && this.data == data && index == 0
      ensures limits == RawLimits(DEFAULT_MAX_STRING_LENGTH, DEFAULT_MAX_DEPTH)
    {
      this.data, index := data, 0;
      limits := RawLimits(DEFAULT_MAX_STRING_LENGTH, DEFAULT_MAX_DEPTH);
    }

    /** Non-positive values keep the current setting. */
    method SetLimits(maxStringLength: int, maxDepth: int)
      requires maxStringLength <= MAX_INT64 && maxDepth <= MAX_INT64
      modifies this`limits
      ensures limits.maxStringLength == if maxStringLength > 0 then maxStringLength else old(limits).maxStringLength
      ensures limits.maxDepth == if maxDepth > 0 then maxDepth else old(limits).maxDepth
    {
      if maxStringLength > 0 {
        limits := RawLimits(maxStringLength, limits.maxDepth);
      }
      if maxDepth > 0 {
        limits := RawLimits(limits.maxStringLength, maxDepth);
      }
    }

    method Parse() returns (r: Result<Node>)
      requires Valid() && index == 0
      modifies this`index
      ensures r == Bencode.Parse(data, limits)
    {
      r := ParseValue(0);
      if r.Success? && index != |data| {
        r := Failure;
      }
    }

    method ParseValue(depth: nat) returns (r: Result<Node>)
      requires Valid()
      modifies this`index
      ensures Valid() && r == Bencode.ParseValue(data, old(index), depth, limits)
      ensures r.Success? ==> index == r.value.end
      decreases |data| - index, 3
    {
      if depth > limits.maxDepth {
        return Failure;
      }
      if index >= |data| {
        return Failure;
      }
      var start := index;
      var current := data[index];
      var value;
      if current == INTEGER {
        var n := ParseInteger();
        if n.Failure? {
          return Failure;
        }
        value := Int(n.value);
      } else if current == LIST {
        var items := ParseList(depth + 1);
        if items.Failure? {
          return Failure;
        }
        value := List(items.value);
      } else if current == DICT {
        var members := ParseDictionary(depth + 1);
        if members.Failure? {
          return Failure;
        }
        value := Dict(members.value);
      } else if IsDigit(current) {
        var bytes := ParseString();
        if bytes.Failure? {
          return Failure;
        }
        value := Str(bytes.value);
      } else {
        return Failure;
      }
      r := Success(Node(value, start, index));
    }

    method ParseInteger() returns (r: Result<int>)
      requires Valid() && index < |data|
      modifies this`index
      ensures Valid()
      ensures var spec := Bencode.ParseInteger(data, old(index));
        if spec.Success? then r == Success(spec.value.0) && index == spec.value.1 else r == Failure
    {
      index := index + 1;
      var start := index;
      while index < |data| && data[index] != END
        invariant start <= index <= |data|
        invariant IndexOf(data, start, END) == IndexOf(data, index, END)
      {
        index := index + 1;
      }
      if index >= |data| {
        return Failure;
      }
      var number := data[start..index];
      index := index + 1;
      if |number| == 0 {
        return Failure;
      }
      ghost var text := number;
      if number[0] == MINUS {
        if |number| == 1 {
          return Failure;
        }
        if number[1] == DIGIT_0 {
          return Failure;
        }
        number := number[1..];
      } else if |number| > 1 && number[0] == DIGIT_0 {
        return Failure;
      }
      var digits := OnlyDigits(number);
      if !digits {
        return Failure;
      }
      assert CanonicalInt(text);
      var value := IntValue(data[start..index - 1]);
      if !IsInt64(value) {
        return Failure;
      }
      r := Success(value);
    }

    static method OnlyDigits(number: Bytes) returns (ok: bool)
      ensures ok <==> AllDigits(number)
    {
      for i := 0 to |number|
        invariant AllDigits(number[..i])
      {
        if !IsDigit(number[i]) {
          return false;
        }
        assert number[..i + 1] == number[..i] + [number[i]];
      }
      assert number[..|number|] == number;
      ok := true;
    }

    method ParseString() returns (r: Result<Bytes>)
      requires Valid() && index < |data|
      modifies this`index
      ensures Valid()
      ensures var spec := Bencode.ParseString(data, old(index), limits);
        if spec.Success? then r == Success(spec.value.0) && index == spec.value.1 else r == Failure
    {
      var start := index;
      while index < |data| && data[index] != COLON
        invariant start <= index <= |data|
        invariant DigitsEnd(data, start) == DigitsEnd(data, index)
      {
        if !IsDigit(data[index]) {
          return Failure;
        }
        index := index + 1;
      }
      if index >= |data| {
        return Failure;
      }
      if index == start {
        return Failure;
      }
      if index - start > 1 && data[start] == DIGIT_0 {
        return Failure;
      }
      assert DigitsEnd(data, start) == index;
      var length := DigitsValue(data[start..index]);
      if length > MAX_INT64 {
        return Failure;
      }
      index := index + 1;
      if length > limits.maxStringLength {
        return Failure;
      }
      if length > |data| - index {
        return Failure;
      }
      var end := index + length;
      var value := data[index..end];
      index := end;
      r := Success(value);
    }

    method ParseList(depth: nat) returns (r: Result<seq<Node>>)
      requires Valid() && index < |data|
      modifies this`index
      ensures Valid()
      ensures var spec := ParseItems(data, old(index) + 1, depth, limits);
        if spec.Success? then r == Success(spec.value.0) && index == spec.value.1 else r == Failure
      decreases |data| - index, 1
    {
      index := index + 1;
      var result: seq<Node> := [];
      AfterNothing(ParseItems(data, index, depth, limits));
      while true
        invariant old(index) < index <= |data|
        invariant ParseItems(data, old(index) + 1, depth, limits)
             == After(result, ParseItems(data, index, depth, limits))
        decreases |data| - index
      {
        if index >= |data| {
          return Failure;
        }
        if data[index] == END {
          index := index + 1;
          assert result + [] == result;
          return Success(result);
        }
        var value := ParseValue(depth);
        if value.Failure? {
          return Failure;
        }
        AfterOneMore(result, value.value, ParseItems(data, index, depth, limits));
        result := result + [value.value];
      }
    }

    method ParseDictionary(depth: nat) returns (r: Result<seq<Member>>)
      requires Valid() && index < |data|
      modifies this`index
      ensures Valid()
      ensures var spec := ParseMembers(data, old(index) + 1, None, depth, limits);
        if spec.Success? then r == Success(spec.value.0) && index == spec.value.1 else r == Failure
      decreases |data| - index, 1
    {
      index := index + 1;
      var result: seq<Member> := [];
      var previous: Option<Bytes> := None;
      AfterNothing(ParseMembers(data, index, previous, depth, limits));
      while true
        invariant old(index) < index <= |data|
        invariant ParseMembers(data, old(index) + 1, None, depth, limits)
               == After(result, ParseMembers(data, index, previous, depth, limits))
        decreases |data| - index
      {
        if index >= |data| {
          return Failure;
        }
        if data[index] == END {
          index := index + 1;
          assert result + [] == result;
          return Success(result);
        }
        if !IsDigit(data[index]) {
          return Failure;
        }
        ghost var before, was := index, previous;
        var key := ParseString();
        if key.Failure? {
          return Failure;
        }
        if previous.Some? && !Less(previous.value, key.value) {
          return Failure;
        }
        // appending an empty key to a nil slice leaves it nil
        if previous.Some? || |key.value| > 0 {
          previous := Some(key.value);
        }
        var value := ParseValue(depth);
        if value.Failure? {
          return Failure;
        }
        AfterOneMore(result, Member(key.value, value.value), ParseMembers(data, index, previous, depth, limits));
        result := result + [Member(key.value, value.value)];
      }
    }
  }

  /** The parse of a whole sequence whose first elements have been read already. */
  function After<T>(done: seq<T>, rest: Result<(seq<T>, nat)>): Result<(seq<T>, nat)> {
    match rest
    case Failure => Failure
    case Success((items, end)) => Success((done + items, end))
  }

  lemma AfterNothing<T>(rest: Result<(seq<T>, nat)>)
    ensures After([], rest) == rest
  {
    if rest.Success? {
      assert [] + rest.value.0 == rest.value.0;
    }
  }

  lemma AfterOneMore<T>(done: seq<T>, next: T, rest: Result<(seq<T>, nat)>)
    ensures After(done, After([next], rest)) == After(done + [next], rest)
  {
    if rest.Success? {
      assert done + ([next] + rest.value.0) == (done + [next]) + rest.value.0;
    }
  }
}
