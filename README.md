# make_lattice: a verified model of the lattice-to-mesh core

`scripts/make_lattice.py` is a Blender script. It reads an accelerator
lattice table and draws each element as a tube. This project models the parts
of the script that decide what is drawn:

- how one line of the table is read into an element record (`map_table_dict`);
- which sub-model file an element's description names (`blendfile`);
- each element type's aperture and colour (`ele_x_scale`, `ele_color`);
- the cross-sections a tube passes through (`box_section`, `ellipse_section`,
  `multipole_section`, `ele_section`, including the curved sections of a
  bending magnet);
- the face list that lofts a tube through its sections (`faces_from`);
- the vertex and face lists of an element's mesh (`ele_mesh`);
- the extent of the lattice along one column (`lat_borders`).

Modules:

- `Wrappers`: `Option` and `Result`.
- `Text`: Python's `str.strip` and `str.split`.
- `Lattice`: the element record, `map_table_dict` and `lat_borders`.
- `Marker`: `blendfile`.
- `Lookup`: `ele_x_scale` and `ele_color`.
- `Topology`: `faces_from`.
- `Sections`: the section builders and `ele_section`.
- `Mesh`: `ele_mesh`.

Some things are not computed here. Each comes in as a parameter instead:

- `math.pi`, `cos` and `sin` come in as a `Trig` value. Statements that need
  cos² + sin² = 1 require it of that value (`Pythagorean`).
- Python's `int()` and `float()` come in as functions from text to an
  optional number.

Where the code loops and appends, the model is a method with the same loop,
proved equal to a function that says what the loop builds. The properties
are proved about that function.

## Model

| member | source | states |
|---|---|---|
| Text.Strip | scripts/make_lattice.py:82 | the result has no leading or trailing whitespace |
| Text.StripIsInfix | scripts/make_lattice.py:82 | the input is the stripped text with only whitespace added on either side |
| Text.StripCharacterised | scripts/make_lattice.py:90 | stripping whitespace-only padding off trimmed text gives back exactly that text |
| Text.Split | scripts/make_lattice.py:80 | at least one piece; no piece contains the separator; joining the pieces with the separator gives back the line |
| Text.SplitUnique | scripts/make_lattice.py:80 | splitting pieces joined by the separator gives back those pieces |
| Lattice.Fields | scripts/make_lattice.py:80 | a line yields between 1 and 14 fields |
| Lattice.IntAt | scripts/make_lattice.py:83 | reading an integer column succeeds exactly when the field exists and parses; otherwise the error is IndexError or ValueError for that column |
| Lattice.RealAt | scripts/make_lattice.py:84-96 | reading a float column succeeds exactly when the field exists and parses; otherwise the error is IndexError or ValueError for that column |
| Lattice.TextAt | scripts/make_lattice.py:90-96 | reading a text column succeeds exactly when the field exists, and yields the field unchanged |
| Lattice.ReadsOkMeans | scripts/make_lattice.py:82-96 | the step-by-step "every column read so far was fine" equals "every read column below n exists and parses" |
| Lattice.ReadRow | scripts/make_lattice.py:82-97 | a row is read when every column the reader reads exists and parses. Otherwise the first bad column, in reading order, is reported, as missing exactly when the line is too short. Name and key are stripped and the description is not. Numbers are the parsed values. angle/e1/e2 are present exactly for SBEND. |
| Lattice.MapTableDict | scripts/make_lattice.py:78-97 | the same, for the first 14 comma-separated fields of the line; fields past the 14th never matter |
| Lattice.Min | scripts/make_lattice.py:334 | `min` of a non-empty list is one of its values and no larger than any |
| Lattice.Max | scripts/make_lattice.py:334 | `max` of a non-empty list is one of its values and no smaller than any |
| Lattice.ColumnOf | scripts/make_lattice.py:333 | `ele[dim]` raises KeyError exactly for `angle`, `e1` or `e2` on a record that is not a bend |
| Lattice.ColumnValues | scripts/make_lattice.py:333 | the list comprehension raises KeyError exactly when some element lacks the column; otherwise it holds each element's value, in order |
| Lattice.LatBorders | scripts/make_lattice.py:332-334 | raises KeyError exactly when some element lacks the column. Otherwise it raises ValueError exactly on an empty lattice. Otherwise both bounds are values of the column, and every element's value lies between them. |
| Lookup.XScale | scripts/make_lattice.py:113-138 | the aperture is positive |
| Lookup.EleXScale | scripts/make_lattice.py:113-138 | the if-chain equals the table lookup. The dump `DU.DUM01` gets 0.4 whatever its key. An unlisted key gets the default 0.1. |
| Lookup.ColorOf | scripts/make_lattice.py:140-160 | every colour has components in [0, 1] |
| Lookup.EleColor | scripts/make_lattice.py:140-160 | the if-chain equals the table lookup. The dump gets grey whatever its key. An unlisted key gets black. |
| Marker.ShortestCapture | scripts/make_lattice.py:100 | the lazy `(.+?)`: the capture found matches, and no shorter capture does; none is found only when no capture matches |
| Marker.Search | scripts/make_lattice.py:100 | `re.search`: the reported start matches, no earlier start matches, and the capture is the shortest there; no result only when nothing matches |
| Marker.FindModel | scripts/make_lattice.py:99-104 | no name exactly when the pattern matches nowhere; otherwise the name is the capture of the leftmost, laziest match followed by `.blend` |
| Marker.BlendFile | scripts/make_lattice.py:99-104 | `blendfile` as written: `None` exactly when there is no match; otherwise a non-empty stem ending in `.blend` |
| Marker.BlendFileEscaped | scripts/make_lattice.py:100 | the same with the dot escaped |
| Marker.MatchSpellsName | scripts/make_lattice.py:100-102 | with the dot escaped, a match spells `3DMODEL=` + the returned name in the description, at the match position |
| Marker.EscapedNameIsQuoted | scripts/make_lattice.py:100-102 | with the dot escaped, `3DMODEL=` + the returned name occurs in the description |
| Marker.UnescapedDotAcceptsAnyChar | scripts/make_lattice.py:100 | as written, `3DMODEL=abcblend` (no `.blend` anywhere) yields `ab.blend`; the escaped pattern yields nothing |
| Topology.Range | scripts/make_lattice.py:182-183 | Python's `range(lo, hi)`: hi-lo consecutive integers from lo, none when hi <= lo |
| Topology.RingQuads | scripts/make_lattice.py:177-180 | one ring has n quads (one when the sections are empty) |
| Topology.SizesCount | scripts/make_lattice.py:171-172 | the set of section sizes has more than one member exactly when two sections differ in size |
| Topology.FacesFrom | scripts/make_lattice.py:166-184 | fails with a size mismatch exactly when sections differ in size. Fails with IndexError exactly when there are no sections. Succeeds exactly otherwise, with the quads of each ring and then, when closed, the two caps. |
| Topology.QuadsLength | scripts/make_lattice.py:176-180 | m rings give m times n quads |
| Topology.FaceCount | scripts/make_lattice.py:176-183 | k sections of n >= 1 points give (k-1)*n faces, plus 2 when closed |
| Topology.QuadsAt | scripts/make_lattice.py:176-180 | face i0*n+j is quad j of ring i0 |
| Topology.QuadJoinsAdjacentSections | scripts/make_lattice.py:177-180 | face i0*n+j joins points j and j+1 (mod n) of section i0 to the same points of section i0+1; the last quad wraps from point n-1 to point 0 |
| Topology.RingInRange | scripts/make_lattice.py:177-180 | every quad of ring i0 uses only points of sections i0 and i0+1 |
| Topology.QuadsInRange | scripts/make_lattice.py:176-180 | every quad of the first m rings uses only the first m+1 sections' points |
| Topology.FaceIndicesInRange | scripts/make_lattice.py:176-183 | every face of k sections of n >= 1 points refers only to vertices 0..k*n-1; without caps every face is a quad |
| Topology.EndCaps | scripts/make_lattice.py:181-183 | a closed tube ends with all points of the first section, then all points of the last; an open tube has only the quads |
| Sections.BoxSection | scripts/make_lattice.py:186-187 | four corners (±h, ±v) in the plane at X, starting (h, v), (-h, v). Going round the rectangle, each corner shares an edge with the next, the last with the first. Opposite corners are mirror images. |
| Sections.EllipseSection | scripts/make_lattice.py:189-191 | n points in the plane at X (none for n <= 0); point i is at angle 2πi/n on the ellipse with half-axes h, v |
| Sections.MultipoleSection | scripts/make_lattice.py:193-195 | 2n points in the plane at X; point i is at angle πi/n + π/(2n) on the circle of radius `aperture` |
| Sections.EllipseOnEllipse | scripts/make_lattice.py:189-191 | with a true cos/sin, every ellipse point satisfies (y/h)² + (z/v)² = 1 |
| Sections.MultipoleOnCircle | scripts/make_lattice.py:193-195 | with a true cos/sin, every multipole point lies at distance `aperture` from the axis |
| Sections.BendPoint | scripts/make_lattice.py:209-224 | the edge rotation, the shift to the bend centre, the rotation along the arc and the shift back leave a point's vertical coordinate unchanged |
| Sections.BentSection | scripts/make_lattice.py:210-225 | a curved bend's section has 4 points, each at vertical offset ±sc |
| Sections.SectionOf | scripts/make_lattice.py:197-230 | the section has 8 points for a quadrupole, 12 for a sextupole, 4 for a bend or wiggler, and 30 otherwise. Except on a curved bend it lies in the plane at s. A bend's points all sit at vertical offset ±aperture. |
| Sections.EleSection | scripts/make_lattice.py:197-230 | the branch chain, with the point-by-point loop for curved bends, returns exactly `SectionOf` |
| Mesh.Stations | scripts/make_lattice.py:235-239 | 20 stations for a bend and 2 otherwise, the first at -L/2 and the last at L/2 |
| Mesh.StationsEvenlySpaced | scripts/make_lattice.py:235-237 | neighbouring stations are L/(count-1) apart |
| Mesh.FlattenLength | scripts/make_lattice.py:242-245 | k sections of n points give k*n vertices |
| Mesh.FlattenAt | scripts/make_lattice.py:242-245 | point j of section i becomes vertex i*n+j, the numbering `faces_from` uses |
| Mesh.MeshSections | scripts/make_lattice.py:240 | one section per station, all the same size |
| Mesh.FlattenSections | scripts/make_lattice.py:242-245 | the nested append loop yields the sections' points in order |
| Mesh.TakeSections | scripts/make_lattice.py:240 | the sections are `ele_section` at each station |
| Mesh.EleMesh | scripts/make_lattice.py:232-249 | the vertices are the sections' points in order, stations times section size of them. The faces are the closed-tube face list and never fail. Every face index names an existing vertex. |

## Left out

- Everything that talks to Blender is not modelled: materials, objects, the
  camera, lamps, the floor, scene clearing, loading `.blend` libraries and
  building the mesh object. That covers `clear_materials`,
  `emission_material`, `diffuse_material`, `ele_material`, `clear_objects`,
  `load_blend`, `add_children_from_blend`, `ele_object`, the camera and
  lighting helpers, `make_floor`, and the `bpy` calls at the end of
  `ele_mesh`.
- `import_lattice` is not modelled. It reads a file, skips the header and
  reads each line with `map_table_dict`.
- The top-level driver is not modelled. It centres the lattice with
  hand-set constants, skips zero-length elements and places and rotates the
  objects.
- The first, placeholder definition of `ele_section` (it returns 0) is
  replaced by the later definition before any call, so only the later one
  is modelled.
- Real numbers are exact here. Python floats round, and their
  rounding is not modelled (for example `0.1*0.7` is exactly 0.07 here).
- `int()` and `float()` are parameters. Their grammar is not modelled.
- `math.cos`, `math.sin` and `math.pi` are parameters. The mathutils
  matrices are written out as the point transforms they perform.
- Lattice.LatBorders: the columns offered are index, x, y, z, theta, phi,
  psi, L, angle, e1 and e2. Python would also take `min`/`max` over the
  text columns (name, key, descrip), and raise KeyError for any other
  name; neither is modelled.
- Lattice.LatBorders: the values of `float()` are taken to be finite reals.
  Python's `float()` also accepts `nan` and `inf`. With a nan in the column,
  Python's `min`/`max` depend on the order of the list. There the bounds
  need not enclose every value, and this model does not capture that.
- Topology.FacesFrom: the error message printed on a size mismatch is not
  modelled, only the `None` result.
- Topology.FaceCount, Topology.QuadJoinsAdjacentSections and
  Topology.FaceIndicesInRange require sections of at least one point. The
  face list for empty sections is modelled as written, a wrap-around quad
  (-1, -1, 0, 0) per ring, but nothing is proved about it.
- converter_element_modeling/simulation/include/point_cache.hpp and
  cal_binner.hpp are not part of this model. They are C++ declarations
  unrelated to the mesh construction.

## Findings

| source | as written | input that shows it | evidently intended | confidence | as-written member | corrected member |
|---|---|---|---|---|---|---|
| scripts/make_lattice.py:100 | the pattern `3DMODEL=(.+?).blend` leaves the dot unescaped, so any character other than a newline may stand before `blend` | a description `3DMODEL=abcblend` contains no `.blend` but yields the file name `ab.blend` | `3DMODEL=(.+?)\.blend`, which finds nothing there and always returns a name spelled in the description | medium; not executed | Marker.UnescapedDotAcceptsAnyChar | Marker.EscapedNameIsQuoted |
