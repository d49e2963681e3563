/** An accepted image with two sections, of which the second in the table comes first in the file. */
module PeTwoSections {
  import opened Wrappers
  import opened Bytes
  import opened Alignment
  import opened PeHeader
  import opened PeStreams
  import opened PeDigest
  import opened PeInvariance
  import opened PeFormat

  /** A 64-bit UEFI application as a linker writes it, with five data directories and 24 bytes of raw data. */
  const TWO: Fields := Fields(
    Zeros(58), [], 0x8664, Zeros(12), Zeros(2), true, Zeros(34), 1, Zeros(20), 320, Zeros(4), 10, Zeros(38),
    [NO_DATA, NO_DATA, NO_DATA, NO_DATA, NO_DATA], [],
    [SectionHeader(Zeros(16), 8, 336, Zeros(16)), SectionHeader(Zeros(16), 16, 320, Zeros(16))],
    Zeros(24))

  const NO_DATA: Directory := Directory(0, 0)

  const HEADER: Header := Header(0x8664, X64, 10, 152, 240, 2, 320, Some(232), 0, 0, 1)

  const SECTIONS: seq<Section> := [Section(320, 16), Section(336, 8)]

  lemma TwoIsLinked()
    ensures WellSized(TWO) && Linked(TWO, X64) && HeaderFor(TWO, X64) == HEADER && ImageSize(TWO) == 344
  {
    hide Zeros;
    assert PowerOfTwo(1);
  }

  lemma TwoParses()
    ensures WellSized(TWO) && |Image(TWO)| == 344 && ParseHeader(Image(TWO)) == Success(HEADER)
    ensures HEADER.Valid(344) && RawSections(Image(TWO), HEADER, 2) == [Section(336, 8), Section(320, 16)]
  {
    hide ParseHeader, Image, Linked, HeaderFor, RawSections, Header.Valid, WellSized;
    TwoIsLinked();
    WrittenIsParsed(TWO, X64);
    ImageParts(TWO);
    WrittenSectionsAreRead(TWO, X64, 2);
    assert TWO.sections[..2] == TWO.sections;
    InTableOrder();
  }

  lemma InTableOrder()
    ensures WithData(TWO.sections) == [Section(336, 8), Section(320, 16)]
  {
    var front := TWO.sections[..1];
    assert front[..0] == [] && WithData([]) == [];
    assert WithData(front) == [Section(336, 8)];
  }

  lemma TwoSections()
    ensures WellSized(TWO) && |Image(TWO)| == 344 && HEADER.Valid(344)
    ensures Sections(Image(TWO), HEADER) == SECTIONS
  {
    hide ParseHeader, Image, RawSections, Header.Valid, WellSized;
    TwoParses();
    SortTwo(Section(336, 8), Section(320, 16));
  }

  lemma SortTwo(a: Section, b: Section)
    requires b.rawOffset < a.rawOffset
    ensures SortByOffset([a, b]) == [b, a]
  {
    assert [a, b][..1] == [a] && [a][..0] == [] && SortByOffset([]) == [];
    assert SortByOffset([a]) == [a];
  }

  /** An alignment of 1 rounds nothing. */
  lemma {:induction false} AlignedByOne(s: seq<Section>)
    ensures Aligned(s, 1) == s
  {
    if s != [] {
      AlignedByOne(s[..|s| - 1]);
      PowerOfTwoTest(1);
      AlignUpValue(s[|s| - 1].rawSize, 1);
    }
  }

  lemma TwoTotals()
    ensures Aligned(SECTIONS, 1) == SECTIONS && Total(SECTIONS) == 24
  {
    AlignedByOne(SECTIONS);
    assert SECTIONS[..1] == [Section(320, 16)] && SECTIONS[..1][..0] == [];
    assert Total([]) == 0 && Total(SECTIONS[..1]) == 16;
  }

  lemma TwoStructure()
    ensures Structural(HEADER, SECTIONS, 344) && RoundedFits(HEADER, SECTIONS, 344) && Gapless(SECTIONS, 320)
  {
    hide ParseHeader, RawSections, Image, WellSized, Aligned, Total, Header.Valid;
    TwoParses();
    TwoTotals();
    assert StopBefore(SECTIONS, 0, 320) == 320 && StopBefore(SECTIONS, 1, 320) == 336;
  }

  /** It is accepted whatever the hash function. */
  lemma TwoIsAccepted(sha: seq<Byte> -> string)
    ensures WellSized(TWO) && Accepted(Image(TWO), sha) && HeaderOf(Image(TWO)) == HEADER
    ensures Sections(Image(TWO), HEADER) == SECTIONS && RawSections(Image(TWO), HEADER, 2) != SECTIONS
  {
    hide ParseHeader, Image, RawSections, Sections, Structural, RoundedFits, Gapless, WellSized;
    TwoParses();
    TwoSections();
    TwoStructure();
    GaplessIsAccepted(Image(TWO), sha);
  }
}
