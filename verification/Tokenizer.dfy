/** The host's byte-at-a-time tokenizer, with the buffers and counters of serial/tokenizer.go. */
module Tokenizers {
  import opened Bytes
  import opened Frames

  datatype State = StateMagicValue | StateDataSize | StateDataSizeSecondByte | StateDataRead

  class Tokenizer {
    var currToMatch: nat
    var tokenData: seq<byte>
    var textData: seq<byte>
    var potentialTextData: seq<byte>
    var tokens: seq<seq<byte>>
    var state: State
    var contentLength: word
    var bytesCount: nat

    /** The partial-match buffer is always the magic's first currToMatch bytes, and the body buffer
        always holds bytesCount bytes. */
    ghost predicate Valid()
      reads this
    {
      && currToMatch < |MAGIC|
      && potentialTextData == MAGIC[..currToMatch]
      && |tokenData| == bytesCount
      && match state
         case StateMagicValue => tokenData == []
         case StateDataSize => currToMatch == 0 && tokenData == []
         case StateDataSizeSecondByte => currToMatch == 0 && tokenData == [] && contentLength < 0x100
         case StateDataRead => currToMatch == 0 && (contentLength == 0 || bytesCount < contentLength)
    }

    /** The automaton state these buffers stand for. */
    ghost function Lex(): (l: Lexer)
      requires Valid()
      reads this
      ensures l.Valid()
    {
      match state
      case StateMagicValue => Matching(currToMatch)
      case StateDataSize => SizeLow
      case StateDataSizeSecondByte => SizeHigh(contentLength)
      case StateDataRead => Body(contentLength, tokenData)
    }

    constructor ()
      ensures Valid() && Lex() == IDLE && textData == [] && tokens == []
    {
      currToMatch, bytesCount, contentLength := 0, 0, 0;
      tokenData, textData, potentialTextData, tokens := [], [], [], [];
      state := StateMagicValue;
    }

    method Submit(val: byte)
      requires Valid()
      modifies this
      ensures Valid() && Lex() == Next(old(Lex()), val)
      ensures TextOf(textData) == TextOf(old(textData)) + TextIn(Emit(old(Lex()), val))
      ensures tokens == old(tokens) + FramesIn(Emit(old(Lex()), val))
    {
      if state == StateMagicValue {
        MatchMagic(val);
      } else if state == StateDataSize {
        contentLength := val;
        state := StateDataSizeSecondByte;
      } else if state == StateDataSizeSecondByte {
        contentLength := val * 0x100 + contentLength;
        state := StateDataRead;
      } else {
        ReadData(val);
      }
    }

    /** The part for stateMagicValue. */
    method MatchMagic(val: byte)
      requires Valid() && state == StateMagicValue
      modifies this
      ensures Valid() && Lex() == Next(old(Lex()), val) && tokens == old(tokens)
      ensures TextOf(textData) == TextOf(old(textData)) + TextIn(Emit(old(Lex()), val))
      ensures FramesIn(Emit(old(Lex()), val)) == []
    {
      potentialTextData := potentialTextData + [val];
      if val != MAGIC[currToMatch] {
        TextAppend(textData, potentialTextData);
        AllText(potentialTextData);
        textData := textData + potentialTextData;
        potentialTextData := [];
        currToMatch := 0;
        return;
      }
      assert MAGIC[..currToMatch] + [val] == MAGIC[..currToMatch + 1];
      currToMatch := currToMatch + 1;
      if currToMatch == |MAGIC| {
        potentialTextData := [];
        currToMatch := 0;
        state := StateDataSize;
        contentLength := 0;
        bytesCount := 0;
        tokenData := [];
      }
    }

    /** The part for stateDataRead. */
    method ReadData(val: byte)
      requires Valid() && state == StateDataRead
      modifies this
      ensures Valid() && Lex() == Next(old(Lex()), val) && textData == old(textData)
      ensures TextIn(Emit(old(Lex()), val)) == [] && tokens == old(tokens) + FramesIn(Emit(old(Lex()), val))
    {
      bytesCount := bytesCount + 1;
      tokenData := tokenData + [val];
      if bytesCount == contentLength {
        OneFrame(tokenData);
        state := StateMagicValue;
        bytesCount := 0;
        var data := tokenData;
        tokenData := [];
        tokens := tokens + [data];
      }
    }

    /** The oldest token not taken yet, if any. */
    method NextToken() returns (tok: seq<byte>, found: bool)
      requires Valid()
      modifies this
      ensures Valid() && Lex() == old(Lex()) && textData == old(textData)
      ensures found <==> old(tokens) != []
      ensures if found then [tok] + tokens == old(tokens) else tokens == []
    {
      if |tokens| == 0 {
        return [], false;
      }
      tok, found := tokens[0], true;
      tokens := tokens[1..];
    }

    /** The text gathered since the last call. */
    method Data() returns (text: seq<byte>)
      requires Valid()
      modifies this
      ensures Valid() && Lex() == old(Lex()) && tokens == old(tokens)
      ensures text == old(textData) && textData == []
    {
      text := textData;
      textData := [];
    }
  }

  ghost function TextIn(es: seq<Event>): seq<Event> {
    if es == [] then [] else (if es[0].Text? then [es[0]] else []) + TextIn(es[1..])
  }

  ghost function FramesIn(es: seq<Event>): seq<seq<byte>> {
    if es == [] then [] else (if es[0].Frame? then [es[0].data] else []) + FramesIn(es[1..])
  }

  lemma OneFrame(data: seq<byte>)
    ensures FramesIn([Frame(data)]) == [data] && TextIn([Frame(data)]) == []
  {
    assert [Frame(data)][1..] == [];
  }

  lemma {:induction false} AllText(t: seq<byte>)
    ensures TextIn(TextOf(t)) == TextOf(t) && FramesIn(TextOf(t)) == []
    decreases |t|
  {
    if t != [] {
      assert TextOf(t)[1..] == TextOf(t[1..]);
      AllText(t[1..]);
    }
  }
}
