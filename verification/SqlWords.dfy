/** Which chunks the relay blocks, told from their bytes. */
module SqlWords {
  import opened SqlProxy

  /** An upper-case letter or a blank. */
  predicate IsPlain(c: char)
  {
    c == ' ' || 'A' <= c <= 'Z'
  }

  predicate PlainWord(word: string)
  {
    word != "" && forall i :: 0 <= i < |word| ==> IsPlain(word[i])
  }

  /** The byte is this character, or the small form of this letter. */
  predicate Spells(b: byte, c: char)
  {
    b as int == c as int || (c != ' ' && b as int == c as int + 32)
  }

  /** The data start with the word, each letter small or capital; an I may also be a dotless i, and an S a
      long s, in two bytes of UTF-8. */
  predicate StartsWith(data: seq<byte>, word: string)
    decreases |word|
  {
    || word == ""
    || (data != [] && Spells(data[0], word[0]) && StartsWith(data[1..], word[1..]))
    || (word[0] == 'I' && |data| >= 2 && data[0] == 0xC4 && data[1] == 0xB1 && StartsWith(data[2..], word[1..]))
    || (word[0] == 'S' && |data| >= 2 && data[0] == 0xC5 && data[1] == 0xBF && StartsWith(data[2..], word[1..]))
  }

  /** The word occurs behind the 4-byte header. */
  ghost predicate Says(data: Chunk, word: string)
  {
    exists i :: 4 <= i <= |data| && StartsWith(data[i..], word)
  }

  // ---------- Upper-casing and searching ----------

  lemma AsciiTail(word: string)
    requires word != ""
    ensures Ascii(word)[1..] == Ascii(word[1..]) && Ascii(word)[0] as int == word[0] as int % 256
  {
  }

  predicate HasPrefix(text: seq<byte>, word: seq<byte>)
  {
    |word| <= |text| && text[..|word|] == word
  }

  lemma PrefixTail(text: seq<byte>, word: seq<byte>)
    requires word != []
    ensures HasPrefix(text, word) <==> text != [] && text[0] == word[0] && HasPrefix(text[1..], word[1..])
  {
    if |word| <= |text| {
      assert text[..|word|] == [text[0]] + text[1..][..|word| - 1];
      assert word == [word[0]] + word[1..];
    }
  }

  lemma UpperSpells(b: byte, c: char)
    requires IsPlain(c)
    ensures UpperByte(b) as int == c as int <==> Spells(b, c)
  {
  }

  predicate TwoByteLetter(data: seq<byte>, c: char)
  {
    && |data| >= 2
    && ((c == 'I' && data[0] == 0xC4 && data[1] == 0xB1) || (c == 'S' && data[0] == 0xC5 && data[1] == 0xBF))
  }

  lemma UpperHead(data: seq<byte>, c: char)
    requires IsPlain(c)
    ensures Upper(data) != [] && Upper(data)[0] as int == c as int <==>
              (data != [] && Spells(data[0], c)) || TwoByteLetter(data, c)
  {
    if data != [] {
      UpperSpells(data[0], c);
      if HeadLength(data) == 2 {
        assert Upper(data)[0] == if data[0] == 0xC4 then 'I' as byte else 'S' as byte;
      } else {
        assert Upper(data)[0] == UpperByte(data[0]);
      }
    }
  }

  function HeadLength(data: seq<byte>): (n: nat)
    requires data != []
    ensures 1 <= n <= |data|
  {
    if |data| >= 2 && ((data[0] == 0xC4 && data[1] == 0xB1) || (data[0] == 0xC5 && data[1] == 0xBF)) then 2 else 1
  }

  lemma UpperTail(data: seq<byte>)
    requires data != []
    ensures Upper(data) != [] && Upper(data)[1..] == Upper(data[HeadLength(data)..])
  {
  }

  lemma {:induction false} PrefixOfUpper(data: seq<byte>, word: string)
    requires forall i :: 0 <= i < |word| ==> IsPlain(word[i])
    ensures HasPrefix(Upper(data), Ascii(word)) <==> StartsWith(data, word)
    decreases |word|
  {
    if word != "" {
      AsciiTail(word);
      PrefixTail(Upper(data), Ascii(word));
      UpperHead(data, word[0]);
      if data != [] {
        UpperTail(data);
        PrefixOfUpper(data[HeadLength(data)..], word[1..]);
      }
    }
  }

  lemma ContainsTail(text: seq<byte>, word: seq<byte>)
    requires text != []
    ensures Contains(text, word) <==> HasPrefix(text, word) || Contains(text[1..], word)
  {
    if i :| 0 <= i <= |text| && OccursAt(text, word, i) {
      if i > 0 {
        assert text[1..][i - 1..i - 1 + |word|] == text[i..i + |word|];
        assert OccursAt(text[1..], word, i - 1);
      }
    }
    if HasPrefix(text, word) { assert OccursAt(text, word, 0); }
    if i :| 0 <= i <= |text[1..]| && OccursAt(text[1..], word, i) {
      assert text[1..][i..i + |word|] == text[i + 1..i + 1 + |word|];
      assert OccursAt(text, word, i + 1);
    }
  }

  ghost predicate SaysFrom(data: seq<byte>, word: string)
  {
    exists i :: 0 <= i <= |data| && StartsWith(data[i..], word)
  }

  lemma {:induction false} ContainsUpper(data: seq<byte>, word: string)
    requires PlainWord(word)
    ensures Contains(Upper(data), Ascii(word)) <==> SaysFrom(data, word)
    decreases |data|
  {
    if data == [] {
      assert !StartsWith([], word);
      assert Upper(data) == [] && !Contains([], Ascii(word));
    } else {
      var n := HeadLength(data);
      UpperTail(data);
      ContainsTail(Upper(data), Ascii(word));
      PrefixOfUpper(data, word);
      ContainsUpper(data[n..], word);
      if i :| 0 <= i <= |data| && StartsWith(data[i..], word) {
        if i == 0 {
          assert data[0..] == data;
        } else if i >= n {
          assert data[n..][i - n..] == data[i..];
        } else {
          assert data[i..][0] == data[1];
        }
      }
      if i :| 0 <= i <= |data[n..]| && StartsWith(data[n..][i..], word) {
        assert data[n..][i..] == data[n + i..];
      }
      if StartsWith(data, word) { assert data[0..] == data; }
    }
  }

  lemma SaysExactly(data: Chunk, word: string)
    requires PlainWord(word) && |data| >= 5
    ensures Contains(Upper(data[4..]), Ascii(word)) <==> Says(data, word)
  {
    ContainsUpper(data[4..], word);
    if i :| 4 <= i <= |data| && StartsWith(data[i..], word) {
      assert data[4..][i - 4..] == data[i..];
    }
    if i :| 0 <= i <= |data[4..]| && StartsWith(data[4..][i..], word) {
      assert data[4..][i..] == data[i + 4..];
    }
  }

  lemma MentionsExactly(data: Chunk, words: seq<string>)
    requires |data| >= 5 && forall word :: word in words ==> PlainWord(word)
    ensures Mentions(data, words) <==> exists word :: word in words && Says(data, word)
  {
    forall word | word in words ensures Contains(Upper(data[4..]), Ascii(word)) <==> Says(data, word) {
      SaysExactly(data, word);
    }
  }

  ghost predicate SaysWrite(data: Chunk)
  {
    || Says(data, "INSERT") || Says(data, "UPDATE") || Says(data, "DELETE") || Says(data, "REPLACE")
    || Says(data, "CREATE") || Says(data, "ALTER") || Says(data, "DROP") || Says(data, "TRUNCATE")
    || Says(data, "GRANT") || Says(data, "REVOKE") || Says(data, "LOCK") || Says(data, "UNLOCK")
  }

  ghost predicate SaysMigration(data: Chunk)
  {
    || Says(data, "CREATE TABLE") || Says(data, "ALTER TABLE") || Says(data, "DROP TABLE")
    || Says(data, "CREATE INDEX") || Says(data, "DROP INDEX") || Says(data, "RENAME TABLE")
  }

  lemma MentionsEither(data: Chunk, words: seq<string>, more: seq<string>)
    ensures Mentions(data, words + more) <==> Mentions(data, words) || Mentions(data, more)
  {
    assert forall word :: word in words + more <==> word in words || word in more;
  }

  lemma MentionsFour(data: Chunk, a: string, b: string, c: string, d: string)
    requires |data| >= 5 && PlainWord(a) && PlainWord(b) && PlainWord(c) && PlainWord(d)
    ensures Mentions(data, [a, b, c, d]) <==> Says(data, a) || Says(data, b) || Says(data, c) || Says(data, d)
  {
    MentionsExactly(data, [a, b, c, d]);
    assert [a, b, c, d][0] == a && [a, b, c, d][1] == b && [a, b, c, d][2] == c && [a, b, c, d][3] == d;
  }

  lemma FirstWrites(data: Chunk)
    requires |data| >= 5
    ensures Mentions(data, ["INSERT", "UPDATE", "DELETE", "REPLACE"]) <==>
              Says(data, "INSERT") || Says(data, "UPDATE") || Says(data, "DELETE") || Says(data, "REPLACE")
  {
    MentionsFour(data, "INSERT", "UPDATE", "DELETE", "REPLACE");
  }

  lemma SecondWrites(data: Chunk)
    requires |data| >= 5
    ensures Mentions(data, ["CREATE", "ALTER", "DROP", "TRUNCATE"]) <==>
              Says(data, "CREATE") || Says(data, "ALTER") || Says(data, "DROP") || Says(data, "TRUNCATE")
  {
    MentionsFour(data, "CREATE", "ALTER", "DROP", "TRUNCATE");
  }

  lemma ThirdWrites(data: Chunk)
    requires |data| >= 5
    ensures Mentions(data, ["GRANT", "REVOKE", "LOCK", "UNLOCK"]) <==>
              Says(data, "GRANT") || Says(data, "REVOKE") || Says(data, "LOCK") || Says(data, "UNLOCK")
  {
    MentionsFour(data, "GRANT", "REVOKE", "LOCK", "UNLOCK");
  }

  lemma WriteWordsSplit(data: Chunk)
    ensures Mentions(data, WRITE_OPS) <==>
              || Mentions(data, ["INSERT", "UPDATE", "DELETE", "REPLACE"])
              || Mentions(data, ["CREATE", "ALTER", "DROP", "TRUNCATE"])
              || Mentions(data, ["GRANT", "REVOKE", "LOCK", "UNLOCK"])
  {
    MentionsEither(data, WRITE_OPS[..4], WRITE_OPS[4..]);
    MentionsEither(data, WRITE_OPS[4..][..4], WRITE_OPS[4..][4..]);
    assert WRITE_OPS == WRITE_OPS[..4] + WRITE_OPS[4..] && WRITE_OPS[4..] == WRITE_OPS[4..][..4] + WRITE_OPS[4..][4..];
    assert WRITE_OPS[..4] == ["INSERT", "UPDATE", "DELETE", "REPLACE"];
    assert WRITE_OPS[4..][..4] == ["CREATE", "ALTER", "DROP", "TRUNCATE"];
    assert WRITE_OPS[4..][4..] == ["GRANT", "REVOKE", "LOCK", "UNLOCK"];
  }

  lemma WriteExactly(data: Chunk)
    requires |data| >= 5
    ensures Mentions(data, WRITE_OPS) <==> SaysWrite(data)
  {
    WriteWordsSplit(data);
    FirstWrites(data);
    SecondWrites(data);
    ThirdWrites(data);
  }

  lemma MigrationExactly(data: Chunk)
    requires |data| >= 5
    ensures Mentions(data, MIGRATION_OPS) <==> SaysMigration(data)
  {
    MentionsExactly(data, MIGRATION_OPS);
    assert MIGRATION_OPS[0] == "CREATE TABLE" && MIGRATION_OPS[1] == "ALTER TABLE" && MIGRATION_OPS[2] == "DROP TABLE";
    assert MIGRATION_OPS[3] == "CREATE INDEX" && MIGRATION_OPS[4] == "DROP INDEX" && MIGRATION_OPS[5] == "RENAME TABLE";
  }

  lemma OneChunk(data: Chunk, mode: State, direction: Direction)
    ensures Passed([data], [mode], direction) == if Blocked(data, mode, direction) then [] else [data]
  {
    OneMoreChunk([data], [mode], direction, 0);
    assert [data][..1] == [data] && [mode][..1] == [mode];
    assert Passed([data][..0], [mode][..0], direction) == [];
  }

  /** During a migration a chunk of five bytes or more from the client is kept from the target exactly when it
      says one of the twelve write words, in any letter case, and none of the six migration phrases. */
  lemma KeptBackExactly(data: Chunk)
    requires |data| >= 5
    ensures Passed([data], [Migrating], ClientToTarget) == [] <==>
              && (|| Says(data, "INSERT") || Says(data, "UPDATE") || Says(data, "DELETE") || Says(data, "REPLACE")
                  || Says(data, "CREATE") || Says(data, "ALTER") || Says(data, "DROP") || Says(data, "TRUNCATE")
                  || Says(data, "GRANT") || Says(data, "REVOKE") || Says(data, "LOCK") || Says(data, "UNLOCK"))
              && !(|| Says(data, "CREATE TABLE") || Says(data, "ALTER TABLE") || Says(data, "DROP TABLE")
                   || Says(data, "CREATE INDEX") || Says(data, "DROP INDEX") || Says(data, "RENAME TABLE"))
    ensures Passed([data], [Migrating], ClientToTarget) == [] || Passed([data], [Migrating], ClientToTarget) == [data]
  {
    WriteExactly(data);
    MigrationExactly(data);
    OneChunk(data, Migrating, ClientToTarget);
  }

  /** A shorter chunk always passes. */
  lemma ShortPasses(data: Chunk, mode: State, direction: Direction)
    requires |data| < 5
    ensures Passed([data], [mode], direction) == [data]
  {
    OneChunk(data, mode, direction);
  }

  // ---------- A packet ----------

  /** A command packet: length, sequence number, the command byte of a query, and its text. */
  function Query(text: string): Chunk
  {
    [((1 + |text|) % 0x100) as byte, 0, 0, 0, 3] + Ascii(text)
  }

  /** The word occurs in the text, as it stands. */
  lemma QuerySays(before: string, word: string, after: string)
    requires PlainWord(word)
    ensures Says(Query(before + word + after), word)
  {
    var data := Query(before + word + after);
    var at := 5 + |before|;
    assert data[at..] == Ascii(word) + Ascii(after);
    WordStarts(word, Ascii(after));
    assert StartsWith(data[at..], word);
  }

  lemma {:induction false} WordStarts(word: string, rest: seq<byte>)
    requires forall i :: 0 <= i < |word| ==> IsPlain(word[i])
    ensures StartsWith(Ascii(word) + rest, word)
    decreases |word|
  {
    if word != "" {
      AsciiTail(word);
      assert (Ascii(word) + rest)[1..] == Ascii(word[1..]) + rest;
      WordStarts(word[1..], rest);
    }
  }
}
