/** A <filesystem> element with double-quoted attributes: the listing reads it, and the removal finds it. */
module FolderQuotes {
  import opened FolderXml
  import opened SharedFolders
  import opened Strings
  import opened Wrappers
  import opened XmlRead

  /** The first `tag` of the text stands at `i`, with `dir="value"` as its first attribute. */
  ghost predicate DirAt(s: string, tag: string, i: nat, value: string) {
    Find(s, tag, 0) == Some(i) && At(s, i, tag + (DIR2 + (value + "\""))) && '"' !in value
  }

  lemma DirFound(s: string, tag: string, i: nat, value: string)
    requires DirAt(s, tag, i, value) && 'd' !in tag && |DIR2| > 0 && DIR2[0] == 'd'
    ensures i <= |s| && Find(s, DIR2, i) == Some(i + |tag|) && At(s, i + |tag|, DIR2 + (value + "\""))
  {
    hide DIR2;
    AtConcat(s, i, tag, DIR2 + (value + "\""));
    AtConcat(s, i + |tag|, DIR2, value + "\"");
    forall k: nat | i <= k < i + |tag| ensures !At(s, k, DIR2) {
      AtChar(s, i, tag, k - i);
      CharIf(s, k, DIR2, 0);
    }
    FindIs(s, DIR2, i, i + |tag|);
  }

  /** Without a single-quoted dir in the text, the double-quoted one is what the tag's dir reads as. */
  lemma DirRead(s: string, tag: string, i: nat, value: string)
    requires DirAt(s, tag, i, value) && !Occurs(s, DIR) && 'd' !in tag && |DIR2| > 0 && DIR2[0] == 'd'
    ensures AttrText(s, tag, DIR, DIR2) == Some(value)
  {
    DirFound(s, tag, i, value);
    hide DIR, DIR2;
    assert Find(s, DIR, i) == None by {
      forall k: nat | i <= k ensures !At(s, k, DIR) {
        if At(s, k, DIR) {
          OccursAt(s, k, DIR);
        }
      }
      FindNone(s, DIR, i);
    }
    AttrTextDouble(s, tag, DIR, DIR2, i, i + |tag|, value);
  }

  lemma TagFacts()
    ensures "<" + "source" + " " == SOURCE_TAG && "<" + "target" + " " == TARGET_TAG
    ensures "dir" + "='" == DIR && "dir" + "=\"" == DIR2 && |DIR2| == 5 && DIR2[0] == 'd'
    ensures 'd' !in SOURCE_TAG && 'd' !in TARGET_TAG
  {
  }

  /** The element is listed if and only if it names one of the three kinds; its values are those in the double quotes. */
  lemma ReadsDouble(block: string, i: nat, source: string, j: nat, target: string)
    requires DirAt(block, SOURCE_TAG, i, source) && DirAt(block, TARGET_TAG, j, target) && !Occurs(block, DIR)
    ensures ReadBody(block) ==
            if Occurs(block, "virtiofs") then Some(Folder(source, target, Virtiofs, Occurs(block, "readonly")))
            else if Occurs(block, "9p") || Occurs(block, "'path'") then Some(Folder(source, target, NineP, Occurs(block, "readonly")))
            else None
  {
    TagFacts();
    DirRead(block, SOURCE_TAG, i, source);
    DirRead(block, TARGET_TAG, j, target);
    hide Occurs, AttrText, SOURCE_TAG, TARGET_TAG, DIR, DIR2, DirAt;
  }

  /** The removal takes it for its tag, when the tag fits the needle. */
  lemma MatchesDouble(block: string, j: nat, target: string)
    requires DirAt(block, TARGET_TAG, j, target) && |target| < 250
    ensures Matches(block, target)
  {
    TagFacts();
    DirFound(block, TARGET_TAG, j, target);
    var needle := DIR2 + (target + "\"");
    assert Needle(target, "\"") == needle by {
      assert "dir=" + "\"" == DIR2;
      assert "dir=" + "\"" + target + "\"" == DIR2 + (target + "\"");
    }
    hide DIR2, Needle, TARGET_TAG;
    FoundFrom(block, needle, j, j + |TARGET_TAG|);
  }

  lemma FoundFrom(s: string, pat: string, from: nat, k: nat)
    requires from <= k && from <= |s| && At(s, k, pat)
    ensures Find(s, pat, from).Some?
  {
  }
}
