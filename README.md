# Sectra DICOM annotation converters in Dafny

This project models three converters that read a DICOM Grayscale Softcopy
Presentation State (the annotations Sectra exports for a whole-slide image):

- `sectra_dicom_to_qupath.py` turns each graphic object into a GeoJSON feature
  for QuPath. A POLYLINE or ARROW object becomes a LineString. A CIRCLE object
  becomes a Polygon. Coordinates are scaled by the image size. A length or area
  measurement read from the label is attached to the feature. This is module
  `GeoJson`, with the label reading in `Measurement`.
- `sectra_dicom_to_imagescope.py` turns each annotation item with at least one
  polygon into an Aperio ImageScope `<Annotation>`. Each polygon becomes a
  `<Region>` with `<Vertex>` children. Annotations and regions are numbered by
  running counters. This is module `ImageScope`.
- `sectra_dicom_to_xml.py` mirrors a whole DICOM data set as a generic XML tree.
  There is one `<Element>` per data element and one `<Item>` per sequence item.
  This is module `XmlMirror`.

The shared layers are the following modules:

- `Dicom`: typed annotation items and a generic data-element tree.
- `Coordinates`: pairing flat GraphicData into points.
- `Numbers`: Python `float()` on plain decimals, `str()` of counters, and
  four-digit hex tags.
- `Text`: `strip`, `split`, `join` and `replace`.
- `Paths`: `os.path.splitext`.
- `Xml`: element-tree values.
- `Options`

Functions give each operation its meaning. Methods with loops follow the
source's own loops, and each method is proved equal to its function. Lemmas
state what the converters promise: round trips, numbering, the shape of
every feature, and agreement between the two coordinate readers.

## Model

| member | source | states |
|---|---|---|
| Coordinates.Pairs | sectra_dicom_to_qupath.py:79-82 | values are paired in order as (x, y); there are len/2 points and a trailing odd value is dropped |
| Coordinates.PairsFlatten | sectra_dicom_to_qupath.py:79-82 | pairing loses no point: flattening points and pairing again gives the same points |
| Coordinates.FlattenPairs | sectra_dicom_to_qupath.py:79-82 | flattening the pairs gives the input without its trailing odd value |
| Numbers.NatToString | sectra_dicom_to_imagescope.py:68 | `str(n)`: non-empty, all digits, reads back as n, no leading zero |
| Numbers.NatToStringInjective | sectra_dicom_to_imagescope.py:68 | different counters never print the same id |
| Numbers.NatToStringDistinct | sectra_dicom_to_imagescope.py:80 | different counters give different id strings |
| Numbers.ParseStripped | sectra_dicom_to_qupath.py:98-108 | `float(value.strip())` equals `float(value)` wherever `float(value)` succeeds, and wherever the value holds none of U+001C to U+001F; so the retry after strip can only rescue text holding such a separator |
| Numbers.StripRetryMatters | sectra_dicom_to_qupath.py:98-108 | the retry does rescue some text: `float("\x1c1")` raises while `float("\x1c1".strip())` is 1.0 |
| Numbers.ParseNeedsDigit | sectra_dicom_to_qupath.py:65 | a string `float` accepts holds a digit, so the empty parts the filter drops could never parse |
| Numbers.ParseRefusesSeparator | sectra_dicom_to_qupath.py:66-74 | a string still holding a backslash never parses as one float |
| Numbers.ParseNatToString | sectra_dicom_to_imagescope.py:68 | a printed counter parses back as the same number |
| Numbers.ParseDecimal | sectra_dicom_to_qupath.py:298 | "whole.fraction" parses as its decimal value |
| Numbers.ParseDigits | sectra_dicom_to_qupath.py:298 | a digit string parses as its integer value |
| Numbers.Hex4 | sectra_dicom_to_xml.py:28 | four hex digits, as `{:04X}` prints them |
| Numbers.Hex4RoundTrip | sectra_dicom_to_xml.py:28 | the four hex digits determine the 16-bit number |
| Text.StripShape | sectra_dicom_to_qupath.py:197 | `strip()` starts and ends with a non-space and is what is left after removing leading and trailing whitespace |
| Text.StripIdempotent | sectra_dicom_to_qupath.py:288 | stripping the already stripped label again changes nothing |
| Text.StripEmptyIff | sectra_dicom_to_qupath.py:197 | the stripped label is empty exactly when the label is all whitespace |
| Text.StrippedIsFixed | sectra_dicom_to_qupath.py:288 | a stripped string is its own strip |
| Text.StripKeepsOnlyOwnChars | sectra_dicom_to_qupath.py:197 | strip introduces no character |
| Text.StripKeepsNonSpace | sectra_dicom_to_qupath.py:197 | strip removes no non-space character |
| Text.Split | sectra_dicom_to_imagescope.py:35 | `split(sep)` gives one more part than separators, and no part holds the separator |
| Text.JoinSplit | sectra_dicom_to_imagescope.py:35 | joining the parts of a split gives the string back |
| Text.SplitJoin | sectra_dicom_to_qupath.py:64 | splitting separator-free parts joined by the separator gives the parts back |
| Text.CountPositive | sectra_dicom_to_qupath.py:62-64 | a string holding the separator splits into at least two parts |
| Text.Replace | sectra_dicom_to_qupath.py:298 | `replace(',', '.')` changes exactly the commas |
| Paths.SplitExt | sectra_dicom_to_xml.py:51 | `os.path.splitext`: the root and extension concatenate to the path, and the extension is empty or a dot and a name |
| Paths.LastIndexBelow | sectra_dicom_to_xml.py:51 | finds the last occurrence of a character below a bound |
| Paths.RootHasStem | sectra_dicom_to_xml.py:51 | the root of a path with a file stem still has that stem |
| Paths.SplitDefaultPath | sectra_dicom_to_xml.py:51 | root + suffix + extension splits back into (root + suffix, extension) |
| GeoJson.ParseFloatFromCoordinate | sectra_dicom_to_qupath.py:93-108 | the float value where `float` accepts the component; otherwise `float` of the stripped text, or 0.0 when that raises too; and 0.0 outright for refused text without information separators |
| GeoJson.NonEmpty | sectra_dicom_to_qupath.py:65 | every kept part is non-empty and every non-empty part is kept; NonEmptyAppend and NonEmptyOne give order and repetitions |
| GeoJson.NonEmptyAppend | sectra_dicom_to_qupath.py:65 | the filter works part by part: filtering two runs is filtering each and concatenating, so order and repetitions are kept |
| GeoJson.NonEmptyOne | sectra_dicom_to_qupath.py:65 | one part is kept exactly when it is not empty |
| GeoJson.ParseAll | sectra_dicom_to_qupath.py:65-77 | succeeds iff every component parses, and then gives each component's value |
| GeoJson.ParseAllOrZero | sectra_dicom_to_qupath.py:54-148 | where the strict reader succeeds, both the plain 0.0 fallback (FloatsOrZero) and the strip-and-retry reader give the same values; where it fails, some component is refused and the plain fallback reads it as 0.0 |
| GeoJson.RetriedIsPlain | sectra_dicom_to_qupath.py:93-108 | on components without information separators, strip-and-retry reads every value exactly as `float` with a 0.0 fallback does |
| GeoJson.StrictCoordinates | sectra_dicom_to_qupath.py:54-91 | an unparseable component gives [], otherwise len/2 points whose x and y are the parsed components |
| GeoJson.ParseEach | sectra_dicom_to_qupath.py:65-77 | the parsing loop equals ParseAll, including the failure case |
| GeoJson.PairUp | sectra_dicom_to_qupath.py:79-82 | the pairing loop equals Pairs |
| GeoJson.ExtractCoordinates | sectra_dicom_to_qupath.py:54-91 | the method equals StrictCoordinates |
| GeoJson.StrictSkipsEmptyParts | sectra_dicom_to_qupath.py:62-65 | a backslash string reads like the list of its non-empty parts |
| GeoJson.RobustCoordinates | sectra_dicom_to_qupath.py:110-148 | len/2 points from the components, each read with ParseFloatFromCoordinate; a number or a string without backslash gives [] |
| GeoJson.PairUpOrZero | sectra_dicom_to_qupath.py:126-142 | the pairing loop equals Pairs of the values read by `parse_float_from_coordinate` (RetriedFloats) |
| GeoJson.PairsOrZero | sectra_dicom_to_qupath.py:126-142 | points built pairwise with `parse_float_from_coordinate` are Pairs of RetriedFloats |
| GeoJson.ExtractCoordinatesRobust | sectra_dicom_to_qupath.py:110-148 | the method equals RobustCoordinates |
| GeoJson.StrictAgreesWithRobust | sectra_dicom_to_qupath.py:54-148 | when every listed value parses, both readers give the same points |
| GeoJson.AnchorOf | sectra_dicom_to_qupath.py:176-192 | an anchor exists iff there are at least two components and the first two parse, and it holds their values |
| GeoJson.ExtractTextObject | sectra_dicom_to_qupath.py:162-199 | the label is stripped; with no text object the label is "" and there is no anchor; an anchor comes from the first text object's components |
| GeoJson.PlainRecords | sectra_dicom_to_qupath.py:211-242 | one record per graphic object, in order |
| GeoJson.CompoundRecords | sectra_dicom_to_qupath.py:245-265 | one record per compound graphic that has a type, each with the item's label, unfilled and with no circle; type and coordinates by CompoundRecordsOne and CompoundRecordsFrom |
| GeoJson.CompoundRecordsAppend | sectra_dicom_to_qupath.py:246-263 | records of concatenated compound lists are the concatenated records |
| GeoJson.CompoundRecordsOne | sectra_dicom_to_qupath.py:246-262 | a compound graphic without a type gives no record; one with a type gives one unfilled record with that type, its coordinates and the label |
| GeoJson.CompoundRecordsFrom | sectra_dicom_to_qupath.py:246-262 | every compound record comes from a compound graphic with that type and those coordinates |
| GeoJson.GraphicRecordsAttributes | sectra_dicom_to_qupath.py:201-270 | the item's records: graphic objects first with type or "UNKNOWN", filled only where GraphicFilled is "Y", every record with the item's label |
| GeoJson.RecordsAttributes | sectra_dicom_to_qupath.py:211-265 | the same facts for any plain and compound lists |
| GeoJson.MakePlainRecord | sectra_dicom_to_qupath.py:214-238 | the method builds PlainRecord |
| GeoJson.AppendPlainRecords | sectra_dicom_to_qupath.py:212-242 | the loop appends PlainRecords to the list so far |
| GeoJson.AppendCompoundRecords | sectra_dicom_to_qupath.py:246-263 | the loop appends CompoundRecords to the list so far |
| GeoJson.ExtractGraphicObjects | sectra_dicom_to_qupath.py:201-270 | the method equals GraphicRecords |
| GeoJson.Scaled | sectra_dicom_to_qupath.py:272-280 | scaling keeps the number of points |
| GeoJson.ScaleCoordinates | sectra_dicom_to_qupath.py:272-280 | the loop equals Scaled |
| GeoJson.ScaledInverse | sectra_dicom_to_qupath.py:272-280 | scaling by w, h and then by 1/w, 1/h gives the points back |
| GeoJson.MeasureLabelMeaning | sectra_dicom_to_qupath.py:291-300 | a measurement is attached iff the label holds a number followed by optional whitespace and mm, mm2 or mm²; its value is the first such number with a comma read as a point |
| GeoJson.FeatureDispatch | sectra_dicom_to_qupath.py:282-328 | a feature exists iff the type is POLYLINE or ARROW with at least two points, or CIRCLE with a circle; it keeps type, filled and stripped label, and a LineString holds the scaled points |
| GeoJson.CreateGeoJsonFeature | sectra_dicom_to_qupath.py:282-328 | the method equals FeatureOf |
| GeoJson.RecordFeatures | sectra_dicom_to_qupath.py:362-365 | at most one feature per record; which records contribute and in what order by RecordFeaturesOne and RecordFeaturesAppend |
| GeoJson.RecordFeaturesAppend | sectra_dicom_to_qupath.py:362-365 | records contribute in order: the features of two runs of records are those of the first run followed by those of the second |
| GeoJson.RecordFeaturesOne | sectra_dicom_to_qupath.py:362-365 | one record contributes its feature when it has one, and nothing otherwise |
| GeoJson.RecordFeaturesComplete | sectra_dicom_to_qupath.py:362-365 | no feature is lost: every record with a feature contributes it |
| GeoJson.RecordFeaturesKinds | sectra_dicom_to_qupath.py:302-323 | every feature is a POLYLINE, CIRCLE or ARROW, and a LineString has at least two points |
| GeoJson.FeaturesKinds | sectra_dicom_to_qupath.py:354-368 | the same holds for every feature of the document |
| GeoJson.FeaturesStep | sectra_dicom_to_qupath.py:356-365 | the features of one more item are the features so far plus that item's |
| GeoJson.DicomToGeoJson | sectra_dicom_to_qupath.py:354-368 | the feature loop equals Features of the annotation items |
| GeoJson.AppendItemFeatures | sectra_dicom_to_qupath.py:358-365 | appends one item's features |
| GeoJson.AppendFeatures | sectra_dicom_to_qupath.py:362-365 | appends the records' features |
| GeoJson.DefaultOutputPathSplits | sectra_dicom_to_qupath.py:406-407 | the default output path splits back into the input's root and ".geojson" |
| Measurement.UnitText | sectra_dicom_to_qupath.py:295 | every unit alternative starts with "mm" |
| Measurement.FirstMatchAt | sectra_dicom_to_qupath.py:295-296 | the first position at or after the start where the pattern matches; none before it |
| Measurement.MatchAtSound | sectra_dicom_to_qupath.py:295 | what the matcher returns at a position is a match reported there |
| Measurement.MatchAtComplete | sectra_dicom_to_qupath.py:295 | a match of the pattern at a position is found there, with the same number text |
| Measurement.FindIff | sectra_dicom_to_qupath.py:295-296 | `re.findall` is non-empty iff the pattern occurs in the label |
| Measurement.FindSound | sectra_dicom_to_qupath.py:295-296 | a found match is an occurrence of the pattern |
| Measurement.FindComplete | sectra_dicom_to_qupath.py:295-296 | any occurrence of the pattern is found |
| Measurement.FindLeftmost | sectra_dicom_to_qupath.py:295-297 | `measurements[0]` is the leftmost occurrence |
| Measurement.MmGuardIsRedundant | sectra_dicom_to_qupath.py:292-296 | whenever the pattern matches, the label contains "mm" |
| Measurement.ReportsContainsMm | sectra_dicom_to_qupath.py:295 | a reported match puts "mm" in the label |
| Measurement.ReportsNumberText | sectra_dicom_to_qupath.py:295 | the captured value is digits, or digits, a comma or point, and digits |
| Measurement.DigitsParse | sectra_dicom_to_qupath.py:298 | an integer capture converts to its value |
| Measurement.SplitNumberParses | sectra_dicom_to_qupath.py:298 | a decimal capture with comma or point converts to its decimal value |
| Measurement.NumberTextParses | sectra_dicom_to_qupath.py:298 | every capture converts, so the `float` on it never raises |
| Measurement.FindParses | sectra_dicom_to_qupath.py:296-298 | the value of the first match converts |
| ImageScope.ParseFloat | sectra_dicom_to_imagescope.py:18-23 | the float value, or 0.0 where `float` raises, with no retry; it agrees with the GeoJSON converter's `parse_float_from_coordinate` exactly when `float` accepts the value or that retry also gives 0.0, and always on numbers and on text without information separators |
| ImageScope.CoordinatesOf | sectra_dicom_to_imagescope.py:26-42 | no data gives []; otherwise len/2 points, each read with ParseFloat |
| ImageScope.ExtractCoordinates | sectra_dicom_to_imagescope.py:26-42 | the method equals CoordinatesOf |
| ImageScope.PairParts | sectra_dicom_to_imagescope.py:36-41 | the pairing loop equals Pairs of FloatsOrZero |
| ImageScope.PairsOfParsed | sectra_dicom_to_imagescope.py:36-41 | pairwise ParseFloat points are Pairs of FloatsOrZero |
| ImageScope.AgreesWithGeoJson | sectra_dicom_to_imagescope.py:26-42 | on values whose parts hold no information separator, the ImageScope reader gives the same points as the QuPath robust reader |
| ImageScope.ReadersDisagree | sectra_dicom_to_imagescope.py:18-42 | with a separator the readers part: on U+001C 1 backslash 2 this converter gives (0.0, 2.0) and the QuPath robust reader (1.0, 2.0) |
| ImageScope.Graphics | sectra_dicom_to_imagescope.py:45-51 | at most one polygon per graphic object and no empty polygon; content and order by GraphicsOne and GraphicsAppend |
| ImageScope.GraphicsOne | sectra_dicom_to_imagescope.py:47-51 | one graphic object yields its coordinate list, unless that list is empty |
| ImageScope.GraphicsAppend | sectra_dicom_to_imagescope.py:47-51 | graphic objects are read in order: the graphics of two runs are those of the first followed by those of the second |
| ImageScope.ExtractGraphics | sectra_dicom_to_imagescope.py:45-51 | the generator loop equals Graphics |
| ImageScope.NumberingAnnotations | sectra_dicom_to_imagescope.py:57-72 | annotation k of the items with polygons gets id k+1 and holds exactly that item's polygons |
| ImageScope.NumberingRegions | sectra_dicom_to_imagescope.py:58-80 | region ids, given per annotation by RegionsFrom, run 1, 2, 3 and on across the whole document |
| ImageScope.AnnotationsXml | sectra_dicom_to_imagescope.py:63-72 | one annotation element per planned annotation, in order |
| ImageScope.RenderedRegions | sectra_dicom_to_imagescope.py:73-84 | the regions across all annotation elements are the rendered region list |
| ImageScope.DocumentAnnotations | sectra_dicom_to_imagescope.py:54-88 | the document has one annotation per item whose graphics (AllGraphics) are not empty; annotation k carries Id k+1, Name "Annotation k+1" and ReadOnly "0", one region per polygon and the polygon's vertices |
| ImageScope.AnnotationsRendered | sectra_dicom_to_imagescope.py:54-88 | the same for any polygon lists |
| ImageScope.DocumentRegions | sectra_dicom_to_imagescope.py:74-84 | region j of the document carries Id j+1, Type "0" and LineColor "65280" |
| ImageScope.RegionsRendered | sectra_dicom_to_imagescope.py:74-84 | the same for any polygon lists |
| ImageScope.DocumentRegionIdsUnique | sectra_dicom_to_imagescope.py:75-80 | no two regions of the document share an Id |
| ImageScope.RegionIdsUnique | sectra_dicom_to_imagescope.py:75-80 | regions numbered in order have pairwise distinct Ids |
| ImageScope.DicomToImageScopeXml | sectra_dicom_to_imagescope.py:54-88 | the method with its two counters equals ImageScopeXml |
| ImageScope.NumberingStep | sectra_dicom_to_imagescope.py:59-84 | one loop step keeps the invariant that the output so far plus the rest's numbering is the whole numbering |
| ImageScope.AddAnnotation | sectra_dicom_to_imagescope.py:60-84 | an item without polygons changes nothing; otherwise one annotation is appended and the counters move by 1 and by the number of polygons |
| ImageScope.BuildRegions | sectra_dicom_to_imagescope.py:74-87 | the region loop equals RegionsXml of RegionsFrom (one Region per polygon, in order, numbered on from the counter) and returns the advanced counter |
| ImageScope.BuildVertices | sectra_dicom_to_imagescope.py:85-87 | the vertex loop equals VerticesXml: one Vertex per point, in order |
| ImageScope.DefaultOutputPathSplits | sectra_dicom_to_imagescope.py:95-96 | the default output path splits into the input's root + "_aperio" and ".xml" |
| XmlMirror.FormatTag | sectra_dicom_to_xml.py:28 | `(GGGG,EEEE)`: 11 characters with hex digits between the brackets and the comma |
| XmlMirror.FormatTagRoundTrip | sectra_dicom_to_xml.py:28 | the printed tag reads back as the tag |
| XmlMirror.FormatTagInjective | sectra_dicom_to_xml.py:28 | different tags print differently |
| XmlMirror.NameOf | sectra_dicom_to_xml.py:29 | the keyword, or the printed tag when the keyword is empty; never empty |
| XmlMirror.MirrorDataset | sectra_dicom_to_xml.py:26-37 | one `Element` child per data element |
| XmlMirror.MirrorElement | sectra_dicom_to_xml.py:27-37 | an `Element` with tag, vr and name attributes; a sequence holds one `Item` per item and no text, any other element holds no children and its printed value |
| XmlMirror.MirrorItems | sectra_dicom_to_xml.py:32-35 | one `Item` per sequence item |
| XmlMirror.MirrorAttributes | sectra_dicom_to_xml.py:30-31 | reading the tag, vr and name attributes gives the printed tag, the VR and the name |
| XmlMirror.AddDatasetToElement | sectra_dicom_to_xml.py:25-37 | the parent gains exactly the mirrored elements, appended after its own children |
| XmlMirror.MakeElement | sectra_dicom_to_xml.py:27-37 | builds MirrorElement |
| XmlMirror.AddItems | sectra_dicom_to_xml.py:32-35 | appends one filled `Item` per sequence item |
| XmlMirror.DatasetToXml | sectra_dicom_to_xml.py:40-43 | a `DicomDataset` root holding the mirrored data set |
| XmlMirror.UnmirrorDataset | sectra_dicom_to_xml.py:26-37 | reading back gives one data element per child |
| XmlMirror.DatasetXmlRoundTrip | sectra_dicom_to_xml.py:25-43 | the XML mirror loses nothing: reading it back gives the data set |
| XmlMirror.ChildrenRoundTrip | sectra_dicom_to_xml.py:26-37 | the children of any element holding the mirror read back as the data set |
| XmlMirror.ElementRoundTrip | sectra_dicom_to_xml.py:27-37 | one mirrored data element reads back as itself |
| XmlMirror.ItemsRoundTrip | sectra_dicom_to_xml.py:32-35 | the items of a mirrored sequence read back as its items |
| XmlMirror.DefaultOutputPathSplits | sectra_dicom_to_xml.py:50-51 | the default output path splits into the input's root and ".xml" |

## Left out

- File I/O is not modelled: `pydicom.dcmread`, writing the output files, `ET.tostring`, `minidom` pretty-printing and the JSON dump. Each converter starts from a parsed data set and ends with a value tree or a feature list.
- The command-line entry points (`argparse`, `main`) are left out. So is the QuPath `if not args.output` test, which also replaces an empty output name. Only the default output path is modelled.
- Paths.SplitExt: models POSIX `os.path.splitext` only, with `/` as the sole separator. The Windows form, with `\` separators and drive letters, is not modelled.
- `read_image_dimensions` and the lookup of the image size in DisplayedAreaSelectionSequence are left out. The image size is a parameter of the QuPath converter.
- `circle_to_polygon` and the radius from the two circle points are left out, because they use floating-point `sqrt`, `cos` and `sin`. A CIRCLE record keeps its centre and rim point. Its feature's geometry is that circle together with the image size, standing for the polygon the source computes from them.
- Floating point is modelled as exact reals. Rounding in scaling and division is not modelled.
- `str(float)` for vertex coordinates is the parameter `show`. `str(value)` of a non-sequence data element is its given printed text.
- Python `float()` is modelled on an optional sign and plain decimal digits with one point, surrounded by the white space `float` ignores. That white space is ASCII space, tab, line feed, vertical tab, form feed and carriage return, plus the non-ASCII characters `str.isspace()` accepts. The information separators U+001C to U+001F are not part of it, although `strip()` removes them. Exponents, `inf`, `nan` and underscores are left out, so such strings are read as refused.
- Non-ASCII decimal digits are read as refused. CPython's `float()` accepts them, for example Arabic-Indic digits, so the model reads 0.0 or no point where the source reads a number.
- The `metadata` block of the QuPath FeatureCollection (sectra_dicom_to_qupath.py:373-382) is left out: the source file name, the image size, the presentation creation date and time, and the content description. The model returns the features only.
- The regular expression's `\d` is taken as the ASCII digits. Other Unicode digits are left out.
- pydicom's MultiValue is treated as a list, as the source's `isinstance(..., (list, tuple))` tests presume. Whether a real MultiValue passes those tests is a property of pydicom and is not part of this model.
- Diagnostics are left out: `print`, `traceback` and the verbose switch. Exceptions the source catches are modelled by the outcome its handler leaves. A refused float gives no coordinates, no anchor or no feature. A CIRCLE record without exactly two points has no `polygon_coordinates`, so the lookup raises KeyError and the handler returns no feature; in the model such a record has no circle and FeatureOf gives None.
- Element trees are immutable values. Every SubElement is fresh and appended before it is filled; the model appends it filled. No element is shared, so aliasing does not arise.
- XmlMirror.DatasetXmlRoundTrip: holds only for well-formed data sets (a sequence element holds items, any other element holds printed text) whose keywords are not themselves printed tags. Otherwise the XML cannot tell the two apart.
- The Groovy scripts of the repository are not part of this model.
