# Camera-guided model cars: a Dafny model of the detection, pairing, filtering, reservation and command logic

The system steers small model cars from a ceiling camera. Each car carries two colour marks: an orange or yellow "front" mark, and a rear ("Heck") mark whose colour identifies the car. The logic modelled here has five parts.

- **Marker detection.** Python detectors classify blob colours by hue, saturation and value. They score blobs by density and keep at most four front marks and one mark per rear colour. A calibration rectangle is fixed from four red corner marks.
- **Pairing and pose.** Front and rear marks are paired into vehicles. In Python this is a greedy nearest match per vehicle. The C++ simulation uses a distance window and keeps pairs stable from frame to frame. Each car gets a heading `atan2(dx, -dy)` normalised into [0, 360).
- **Point filtering.** A temporal filter matches detections to stored points, counts outliers, times points out and reports only stable ones. A pass-through "fast" filter keeps in-range points, one point per Heck number and at most four front points.
- **Segment reservation.** The simulation's road segments are held under mutual exclusion, with a first-come wait queue. A vehicle registry drives each car through IDLE, MOVING, WAITING and ARRIVED.
- **Command protocol.** PC senders turn keyboard input, JSON files and a coordinate file into serial frames `"direction,speed,vehicle\n"`. A bridge firmware parses each frame with `sscanf("%d,%d,%d")`, validates it and forwards it by radio to one of four vehicles.

The model is functional throughout. Blobs and contours are given records of centroid, area, perimeter and sampled colour. State machines are pure transition functions over maps and sequences. Clock readings, the arc tangent, the path system and whatever a serial write reports are parameters. Every `sqrt` comparison is made on squared distances.

Several properties connect the components:

- a frame written by the keyboard or simple JSON sender is read back by the firmware's `sscanf` to exactly the values written (`Text.ScanFormatThree`, `EspFirmware.ForwardsValidFrame`);
- the two-field frames `"d,s\n"` written by the all-vehicles senders and by `SerialCommunication` are never forwarded by the firmware (`EspFirmware.DropsTwoFieldFrame`, `JsonSenders.AllVehiclesFrameDropped`);
- the keyboard sender lets any speed through, and the firmware drops a speed below 120 (`KeyboardSender.UncheckedSpeedDroppedByBridge`);
- in the coordinate filter, the second outlier branch of `updatePoint` can never be taken (`CoordinateFilter.NeverOutlier`);
- in the coordinate relay, the inner `},` of the nested coordinates object closes the record before its `"area"` line is read, so the area is always 0 (`JsonToEsp32.ReadsWrittenObject`).

## Model

| member | source | states |
|---|---|---|
| HueClassifier.HueDist | src/Farberkennung.py:212-214 | the circular hue distance is one of the two ways round, never more than the direct difference, and between 0 and 90 for hues 0..179 |
| HueClassifier.HueDistSymmetric | src/Farberkennung.py:212-214 | the circular hue distance is symmetric |
| HueClassifier.FindClosestColor | src/Farberkennung.py:204-234 | no colour exactly when no profile passes all three tolerance checks; otherwise a passing profile of smallest `dh+ds+dv`, earlier than any passing profile of equal distance, returned with that distance |
| HueClassifier.HueBands | src/Farberkennung.py:324-349 | the hue part of the mask is two bands exactly when target minus tolerance is below 0 or target plus tolerance above 179, one running up from 0 and one up to 179; otherwise it is the single band from target minus to target plus tolerance |
| HueClassifier.ChannelBand | src/Farberkennung.py:318-322 | saturation and value bounds are clamped to 0..255 |
| HueClassifier.HueBandsAreHues | src/Farberkennung.py:325-349 | with a hue tolerance of at most 90, the trackbar maximum, every band bound is a hue 0..179, so the `uint8` arrays hold the values written |
| HueClassifier.HueBandsExact | src/Farberkennung.py:324-349 | a hue lies in one of the mask's bands exactly when its circular distance to the target is within the tolerance |
| HueClassifier.ChannelBandExact | src/Farberkennung.py:318-322 | a channel value 0..255 lies in the clamped band exactly when it is within the tolerance of the target |
| HueClassifier.MaskMatchesGate | src/Farberkennung.py:319-349 | a pixel passes the mask exactly when it passes the classifier's tolerance gate for the same profile |
| HueClassifier.CropWindow | src/Farberkennung.py:191-202 | left and top are at least 0, the window is at least 50 wide and high, and each far edge is the margin edge unless the 50-pixel minimum overrides it |
| HueClassifier.SliceLength | src/Farberkennung.py:200 | a Python slice is never longer than the sequence; it has length hi - lo when both bounds are inside it, and a negative upper bound counts from the end |
| HueClassifier.CroppedSize | src/Farberkennung.py:191-202 | when the margins leave at least 50 pixels, the cropped frame is exactly the frame minus the margins |
| HueClassifier.NormalizeCoordinates | src/Farberkennung.py:236-248 | the coordinates lie in [0, crop width] x [0, crop height] and are unchanged when already inside |
| DensitySpots.ValidSpots | src/Farberkennung.py:365-383 | at most one spot per blob |
| DensitySpots.ValidSpotsMembers | src/Farberkennung.py:367-383 | a spot is listed exactly when some blob with area at least the minimum size, positive perimeter and non-zero moment yields it, scored area times one plus its compactness |
| DensitySpots.DensitySpots | src/Farberkennung.py:353-388 | the result is a permutation of the qualifying spots, sorted by non-increasing score |
| DensitySpots.Offer | src/Farberkennung.py:426-438 | a spot is either skipped or appended, and only when fewer than four are taken and it is at least 30 pixels from every taken spot; four taken spots stay four |
| DensitySpots.OfferSpread | src/Farberkennung.py:429-438 | one greedy step keeps the taken spots pairwise at least 30 pixels apart |
| DensitySpots.SelectFronts | src/Farberkennung.py:421-438 | at most four Front spots are taken |
| DensitySpots.SelectFrontsSpread | src/Farberkennung.py:421-438 | the taken spots are pairwise at least 30 pixels apart and all come from the input |
| DensitySpots.SelectFrontsSorted | src/Farberkennung.py:426-438 | spots taken from a score-sorted list are themselves in score order |
| DensitySpots.SelectFrontsCover | src/Farberkennung.py:426-438 | when fewer than four were taken, every input spot was taken or lies within 30 pixels of a taken one |
| DensitySpots.CoverStep | src/Farberkennung.py:426-438 | one greedy step keeps earlier spots covered and covers the offered spot |
| DensitySpots.CoveredStaysCovered | src/Farberkennung.py:431-438 | a spot covered by the taken list stays covered as the list grows |
| DensitySpots.Confirm | src/Farberkennung.py:441-500 | the candidates are exactly the chosen spots that pass the hue check, in order: candidate i is made from the i-th passing spot, with id nextId + i, the colour name, the spot's position and score, its normalised coordinates and its hue distance |
| DensitySpots.ConfirmedSpots | src/Farberkennung.py:445-458 | exactly the chosen spots that pass the hue check are kept, and nothing else |
| DensitySpots.CandidateOf | src/Farberkennung.py:459-467 | a candidate carries its id, the spot's position and score, the colour name, the normalised coordinates and the hue distance at the spot |
| DensitySpots.Chosen | src/Farberkennung.py:418-472 | a Heck colour checks at most its best spot, Front at most four spots |
| DensitySpots.Collect | src/Farberkennung.py:402-500 | candidate i is made from the i-th spot confirmed by the loop, profile after profile in dictionary order, with id nextId + i (consecutive ids from candidate_id); every candidate carries the name of a configured colour |
| DensitySpots.CollectMembers | src/Farberkennung.py:406-500 | every chosen spot of every colour that lies in the frame and passes the hue check is collected, numbered by its place, and every collected candidate is made from such a spot of some colour |
| DensitySpots.PickHecks | src/Farberkennung.py:511-519 | the Heck pass keeps only Heck1..Heck4 entries of colours not yet used, at most one per colour |
| DensitySpots.FirstOfColorTail | src/Farberkennung.py:516 | the first entry of a colour in the tail is the first in the whole list when the head has another colour |
| DensitySpots.PickHecksFirst | src/Farberkennung.py:511-519 | each picked Heck entry is the first entry of its colour in the list |
| DensitySpots.PickHecksComplete | src/Farberkennung.py:511-519 | every Heck colour present and not yet used is picked |
| DensitySpots.Fronts | src/Farberkennung.py:514-515 | the Front candidates are exactly the list entries coloured "Front" |
| DensitySpots.FrontsSorted | src/Farberkennung.py:514-515 | keeping the Front entries of a score-sorted list keeps it sorted |
| DensitySpots.SortedTail | src/Farberkennung.py:508 | the tail of a score-sorted list is score-sorted |
| DensitySpots.HeadIsBest | src/Farberkennung.py:508 | the head of a score-sorted list scores at least as high as every later entry |
| DensitySpots.ConsSorted | src/Farberkennung.py:508 | a candidate scoring at least as high as every entry of a sorted list can go in front |
| DensitySpots.FinalHecks | src/Farberkennung.py:502-519 | the Heck part holds one entry per Heck colour seen, no colour twice, and each entry scores at least as high as every candidate of its colour |
| DensitySpots.HecksBest | src/Farberkennung.py:508-519 | each picked Heck entry scores at least as high as every candidate of its colour |
| DensitySpots.InSorted | src/Farberkennung.py:508 | sorting keeps every candidate |
| DensitySpots.FirstIsBest | src/Farberkennung.py:508-519 | in a score-sorted list the first entry of a colour scores at least as high as every entry of that colour |
| DensitySpots.HecksComplete | src/Farberkennung.py:508-519 | every Heck colour among the candidates appears in the Heck part |
| DensitySpots.FinalFronts | src/Farberkennung.py:521-525 | the result is the Heck part followed by exactly min(4, number of Front candidates) Front candidates, the first ones in score order |
| DensitySpots.FinalSelection | src/Farberkennung.py:502-525 | every selected candidate is one of the inputs, of a Heck colour or Front |
| ColorBuckets.Classify | src/color_detection_camera_trackbar.py:240-260 | saturation below 50 is exactly the grey class, and otherwise value below 50 is exactly the dark class |
| ColorBuckets.HueTableTiles | src/color_detection_camera_trackbar.py:249-260 | the hue buckets tile the hues 0..179 without gaps or overlaps |
| ColorBuckets.ClassifyByTable | src/color_detection_camera_trackbar.py:249-260 | a saturated, bright pixel gets the class of the bucket holding its hue: red below 15 and above 170, then orange/yellow, green, blue and purple at 15, 35, 85 and 130 |
| ColorBuckets.UnknownOnlyAt170 | src/color_detection_camera.py:206-226 | the result is "Unbekannt" exactly for a saturated, bright pixel of hue 170 |
| CalibrationArea.RedBandsAroundZero | src/color_detection_camera_trackbar.py:94-97 | the two red ranges [0, tol] and [180 - tol, 180] hold exactly the hues within the tolerance of hue 0 on the hue circle |
| CalibrationArea.RedPixelExact | src/color_detection_camera_trackbar.py:94-101 | a pixel is in the combined red mask exactly when its hue is within the red tolerance of hue 0 and its saturation and value reach the configured minimums |
| CalibrationArea.CornerCandidates | src/color_detection_camera_trackbar.py:112-121 | the candidates are exactly the contours with area strictly above the corner minimum and a non-zero moment |
| CalibrationArea.SeqMin | src/color_detection_camera_trackbar.py:138 | `min` is a member of the list and no larger than any member |
| CalibrationArea.SeqMax | src/color_detection_camera_trackbar.py:138-139 | `max` is a member of the list and no smaller than any member |
| CalibrationArea.BoundingBox | src/color_detection_camera_trackbar.py:135-147 | the box keeps the corners, has x_min <= x_max and y_min <= y_max, holds every corner, and each side touches a corner |
| CalibrationArea.DetectRedCorners | src/color_detection_camera_trackbar.py:129-152 | success exactly when at least four candidates exist; then the corners are the centroids of the four largest candidates in sorted order and the area is replaced by their bounding box; on failure no corners and the previous area kept |
| CalibrationArea.CornersAreLargest | src/color_detection_camera_trackbar.py:129-131 | no candidate left out is larger than a kept one, and every kept one is a large-enough input contour |
| CalibrationArea.ColorsInArea | src/color_detection_camera_trackbar.py:158-234 | no area gives an empty list; otherwise report i belongs to the i-th blob that is larger than the colour minimum and has a non-zero moment, in contour order, at its centroid shifted by (x_min, y_min), with its sample and its class |
| CalibrationArea.ColorsInAreaOffsets | src/color_detection_camera_trackbar.py:200-232 | every report comes from a kept blob, and every blob larger than the colour minimum with a non-zero moment is reported |
| Correspondence.Centers | src/MultiVehicleKamera.py:118-152 | the positions are exactly the centroids of regions with area strictly above the minimum and a non-zero moment, and there are no more of them than regions |
| Correspondence.RearMap | src/MultiVehicleKamera.py:105-110 | every colour in the rear map has at least one position |
| Correspondence.RearMapKeys | src/MultiVehicleKamera.py:105-110 | a rear colour is in the map exactly when some vehicle with that colour saw at least one region above 80, and its positions are those of such a vehicle |
| Correspondence.Row | src/MultiVehicleKamera.py:197 | the inner loop visits every front, in order, with the current rear position |
| Correspondence.PairList | src/MultiVehicleKamera.py:195-197 | every visited pair combines one front position with one rear position of the colour |
| Correspondence.ClosestPair | src/MultiVehicleKamera.py:191-203 | -1 exactly when every front is already used; otherwise an unused pair of smallest distance that no earlier unused pair ties, as the strict `<` keeps the first minimum |
| Correspondence.AssignClosestPairs | src/MultiVehicleKamera.py:157-220 | one entry per vehicle in configuration order; a vehicle is paired only when its rear colour was seen and its best pair over fronts unused by earlier vehicles is strictly closer than 200, and is otherwise unresolved at (-1,-1) with infinite distance; no front is given to two vehicles |
| Correspondence.BestIndexDistance | src/MultiVehicleKamera.py:201-203 | any two pairs that meet the choice rule have the same distance, so the 200 cutoff does not depend on which one is taken |
| Correspondence.PrefixKeepsAssigned | src/MultiVehicleKamera.py:186 | processing a later vehicle leaves the promises about earlier vehicles intact, so earlier vehicles pick first |
| Correspondence.UsedBeforeStep | src/MultiVehicleKamera.py:214 | the used-front set grows by exactly the front a newly paired vehicle takes |
| Correspondence.VehicleAngle | src/MultiVehicleKamera.py:222-239 | the heading lies in [0, 360) and differs from `atan2(dx, -dy)` of the rear-to-front vector by 0 or 360 |
| Correspondence.Record | src/MultiVehicleKamera.py:268-294 | the record keeps the vehicle's name and colours and the pair's positions and squared distance; it has an angle exactly when the vehicle was paired, then the heading of rear to front, and 0 otherwise |
| Correspondence.Records | src/MultiVehicleKamera.py:267-296 | one record per configured vehicle, in configuration order |
| Correspondence.DetectAllVehicles | src/MultiVehicleKamera.py:241-296 | the records are those of an assignment in which every vehicle, in order, takes the closest untaken front within 200 of its rear mark, or none; a record with an angle has a rear colour that was seen, and no two share a front |
| Correspondence.PairedRecordsClose | src/MultiVehicleKamera.py:206-213 | every record with an angle carries a finite distance below 200 from a rear colour present in the map |
| Correspondence.PairedRecordsDistinct | src/MultiVehicleKamera.py:198-214 | records with an angle sit on pairwise different fronts |
| Pose.FirstLargest | src/Kamera.py:91 | the index of a contour of largest area, and of the first such contour, as `max` with a key keeps the first maximum |
| Pose.KameraMark | src/Kamera.py:89-104 | a mark is reported only when the largest contour exceeds 200, and then at that contour's truncated centroid; a large contour with a non-zero moment is always reported |
| Pose.CarDetectionData | src/Kamera.py:30-128 | a failed camera gives four empty fields; otherwise the red and yellow fields are the marks found; angle and distance are present exactly when both marks were found, the angle being `atan2(dx, -dy)` from red to yellow in [0, 360) and the distance dx² + dy² |
| Pose.RedObjectCoordinates | src/Kamera.py:235-241 | one 30-by-30 box at the red mark exactly when the red mark was found, otherwise the empty list |
| Pose.FindColorCenter | src/Vehicle.cpp:40-73 | the centroid of the first contour of largest area when some contour exceeds 50, and otherwise the sentinel (-1, -1), which is not a valid detection |
| Pose.FirstLargestStep | src/Vehicle.cpp:55-63 | the running maximum moves only to a strictly larger contour, so the loop ends on the first largest |
| Pose.Detect | src/Vehicle.cpp:12-38 | names and colours are copied and the given centres kept; each side is found exactly when its centre is a valid detection; the angle is set exactly when both are, then the heading from rear to front with the squared distance of the two centres, and otherwise angle and distance stay 0 |
| Pose.CalculateAngle | src/Vehicle.cpp:79-93 | the result lies in [0, 360) and differs from atan2(dx, -dy) in degrees by 0 or 360 |
| Pose.WithPose | src/auto.cpp:22-35 | the points, validity and id are kept; the centre is the midpoint of the two points; the direction is `atan2(dx, -dy)` from the id point to the front point, normalised into [0, 360) |
| Pose.NewAuto | src/auto.cpp:10-13 | the constructed car is valid, carries the given points and the current counter as id, its centre is their midpoint and its direction the heading from id point to front point in [0, 360), and the counter is incremented |
| Pose.UpdatePoints | src/auto.cpp:15-20 | the car takes the new points, becomes valid, keeps its id, and its centre and direction are recomputed from the new points |
| Pose.UpdateIsConstruction | src/auto.cpp:10-20 | updating a constructed car gives the car the constructor would have built from the new points with the same id |
| Pose.ConstructAll | src/auto.cpp:6-13 | constructing cars one after another gives consecutive ids from the counter, all valid, and advances the counter by their number |
| Pose.IdsIncrease | src/auto.cpp:6-11 | with the counter starting at 1, constructed ids strictly increase and none equals the default car's id 0 |
| CarSimulation.Calculate | src/car_simulation.cpp:12-28 | the field is the whole window with no offset, and the column and row counts are the largest numbers of whole 10-pixel fields that fit |
| CarSimulation.CameraToWindow | src/car_simulation.cpp:82-95 | without a positive crop the result is the origin; otherwise each coordinate keeps its proportion: window coordinate over window size equals camera coordinate over crop size |
| CarSimulation.CameraToField | src/car_simulation.cpp:97-114 | without a positive crop the cell is (0, 0); the cell always lies on the grid, and for a point inside the crop it is the floor of the point's proportional grid position |
| CarSimulation.Cell | src/car_simulation.cpp:104-113 | one truncated, clamped coordinate is never negative, never past the last cell, and inside the crop equals the floor of the proportional position |
| CarSimulation.CellInside | src/car_simulation.cpp:104-110 | a coordinate inside the crop lands in one of the grid's cells without clamping |
| CarSimulation.HeckId | src/car_simulation.cpp:72-75 | "HeckN" with a digit N from 1 to 9 gives N - 1; a colour of at most four characters gives 0 |
| CarSimulation.UpdateFromDetectedObjects | src/car_simulation.cpp:55-79 | every front point comes from a "Front" object at the index it is numbered with, every identification point from a "Heck…" object, and front numbers increase |
| CarSimulation.UpdateFrontSources | src/car_simulation.cpp:55-79 | the front points are made one per "Front" object, in input order, numbered with its index |
| CarSimulation.UpdateIdentSources | src/car_simulation.cpp:55-79 | the identification points are made one per "Heck…" object that is not "Front", in input order, each with the object's Heck number and window position |
| CarSimulation.UpdateExtends | src/car_simulation.cpp:61-78 | processing one more object leaves both lists for the earlier objects unchanged as prefixes |
| CarSimulation.UpdateKeepsFronts | src/car_simulation.cpp:68-69 | every "Front" object yields a front point numbered with its index |
| CarSimulation.UpdateKeepsIdents | src/car_simulation.cpp:70-77 | every object whose colour starts with "Heck" yields an identification point at its window position with its HeckId |
| CarSimulation.Recheck | src/car_simulation.cpp:122-142 | a stable car whose pair still holds stays stable with the new distance; one whose pair broke becomes unstable; references and id are kept; other cars are untouched |
| CarSimulation.Candidates | src/car_simulation.cpp:174-178 | the nested loops visit exactly the index pairs inside both lists |
| CarSimulation.CandidateRow | src/car_simulation.cpp:177 | the inner loop visits every identification index once, in order, for a fixed front |
| CarSimulation.ClosestCandidate | src/car_simulation.cpp:169-193 | -1 exactly when no pair is eligible; otherwise an eligible pair with no eligible pair strictly closer, and every earlier pair farther, so the first closest wins |
| CarSimulation.PairOne | src/car_simulation.cpp:167-213 | an unstable car becomes stable exactly when some eligible pair exists, then with the closest one, untaken points, the held distance and the identification point's id; otherwise its invalid references are cleared and everything else kept |
| CarSimulation.StablePairPointsToCars | src/car_simulation.cpp:120-215 | cars whose pair held after the recheck are kept as rechecked; every other car is paired in its turn against the points not yet taken by the cars before it and the held cars after it: with the closest eligible pair and its identification point's id, or, if none, left unpaired with its invalid references cleared |
| CarSimulation.PairAt | src/car_simulation.cpp:167-213 | pairing the car at one index gives it the pairing outcome against the points taken so far, changes no other car, and records exactly its new points as taken |
| CarSimulation.StableKeptStep | src/car_simulation.cpp:167-213 | pairing an unstable car never disturbs the stable cars whose pairs held |
| CarSimulation.RecheckAll | src/car_simulation.cpp:122-142 | the first loop rechecks every car in place and keeps the number of cars |
| CarSimulation.TakenStep | src/car_simulation.cpp:145-164 | pairing one car adds exactly its two points to the marked sets |
| CarSimulation.DistinctStep | src/car_simulation.cpp:174-178 | a car paired with unmarked points shares no point with any other stable car |
| CarSimulation.NotTakenDiffers | src/car_simulation.cpp:175-178 | an unmarked point differs from every point held by a stable car |
| CarSimulation.CalculateAngle | src/car_simulation.cpp:231-245 | the result lies in [0, 360] and is the heading in degrees rounded to the nearest integer |
| CoordinateFilter.NewFilteredPoint | include/coordinate_filter.h:21-24 | a new point is valid, not stable, has no outliers, the 0.5-second stability requirement, and both its times are the moment of creation |
| CoordinateFilter.NewFilter | src/coordinate_filter.cpp:7-9 | a new filter holds no points and takes the three settings given |
| CoordinateFilter.SetOutlierThreshold | include/coordinate_filter.h:48 | the threshold is replaced and the points and other settings are kept |
| CoordinateFilter.SetValidityTimeout | include/coordinate_filter.h:49 | the timeout is replaced and the points and other settings are kept |
| CoordinateFilter.DefaultsAndSetters | include/coordinate_filter.h:35-51 | the defaults are threshold 80, timeout 3 seconds and 3 outliers, and each getter reads back what its setter stored |
| CoordinateFilter.FindClosest | src/coordinate_filter.cpp:103-118 | nothing is found exactly when no stored point of the colour is strictly closer than the threshold; otherwise the result is such a point, no point of the colour is closer, and every earlier one is strictly farther, so the first nearest wins |
| CoordinateFilter.CountOutlier | src/coordinate_filter.cpp:45-50 | the outlier count goes up by one and the point stays valid only while the count is below the maximum; position, time, colour and stability are kept |
| CoordinateFilter.UpdatePoint | src/coordinate_filter.cpp:35-70 | with no match the new point is appended; with a match only the matched point changes: a jump of more than 150 counts an outlier, otherwise the point moves, is refreshed, revalidated and its outlier count reset; the settings are kept |
| CoordinateFilter.NeverOutlier | src/coordinate_filter.cpp:51-57 | a point returned by the closest-point search is never an outlier, since the search already demands a distance below the threshold |
| CoordinateFilter.MatchesAlwaysAccepted | src/coordinate_filter.cpp:38-64 | with a threshold of at most 150 every matched detection is accepted: the matched point ends valid with no outliers |
| CoordinateFilter.WithinThresholdNoJump | src/coordinate_filter.cpp:41-43 | a distance below a threshold of at most 150 is not a jump of more than 150 |
| CoordinateFilter.Expire | src/coordinate_filter.cpp:75-83 | only validity can change, and a point stays valid exactly when it was valid and has been updated within the timeout |
| CoordinateFilter.ExpireAndRemove | src/coordinate_filter.cpp:72-96 | the survivors are exactly the expired-checked points that are not invalid and idle for more than twice the timeout in whole seconds |
| CoordinateFilter.RemoveExpiredPoints | src/coordinate_filter.cpp:72-96 | the remaining points are exactly the stored points after expiry and removal; the settings are kept |
| CoordinateFilter.Stabilise | src/coordinate_filter.cpp:128-136 | a point is stable afterwards exactly when it was, or is valid and has existed for its requirement; nothing but stability changes |
| CoordinateFilter.StabiliseAll | src/coordinate_filter.cpp:125-137 | every stored point is checked in place and the number of points is kept |
| CoordinateFilter.StabilityMonotone | src/coordinate_filter.cpp:125-137 | stability is only ever switched on and validity is untouched |
| CoordinateFilter.ActivePointCount | src/coordinate_filter.cpp:120-123 | the count is the number of positions holding a valid point |
| CoordinateFilter.ClearAll | src/coordinate_filter.cpp:139-141 | no points remain, so none is active, and the settings are kept |
| CoordinateFilter.Reported | src/coordinate_filter.cpp:24-30 | exactly the positions of the valid and stable points are reported |
| CoordinateFilter.UpdateAll | src/coordinate_filter.cpp:17-19 | each detection adds at most one point and never removes one; the settings are kept |
| CoordinateFilter.FilterAndSmooth | src/coordinate_filter.cpp:11-33 | the new state is the expired-and-cleaned state updated with each paired detection and then stabilised; the result is exactly its reported points, each the position of a valid and stable point |
| FastFilter.Tagged | src/coordinate_filter_fast.cpp:33-40 | the position is kept and the colour attached; a "Front…" colour makes a front point, otherwise a "Heck…" colour an identification point, otherwise the type is kept |
| FastFilter.Accepted | src/coordinate_filter_fast.cpp:28-43 | exactly the in-range detections among the paired ones are passed on, each tagged with its colour |
| FastFilter.RemoveDuplicateHeck | src/coordinate_filter_fast.cpp:61-78 | the result is a subsequence of the input keeping every point that is not a Heck point; no Heck number already seen survives, and the surviving Heck numbers are pairwise different |
| FastFilter.KeepsFirstOfNumber | src/coordinate_filter_fast.cpp:65-71 | the first point of each Heck number not seen before is kept |
| FastFilter.FirstOfNumberShift | src/coordinate_filter_fast.cpp:65-71 | being the first of its Heck number carries over from the list to its tail |
| FastFilter.HeckNotFront | src/coordinate_filter_fast.cpp:66-86 | a Heck point is never taken for a front point |
| FastFilter.Fronts | src/coordinate_filter_fast.cpp:85-91 | the front list holds exactly the points whose colour starts with "Front" |
| FastFilter.Others | src/coordinate_filter_fast.cpp:85-91 | the other list holds exactly the remaining points |
| FastFilter.OthersCons | src/coordinate_filter_fast.cpp:85-91 | each point goes to exactly one of the two lists, at its end |
| FastFilter.SplitAppend | src/coordinate_filter_fast.cpp:85-91 | splitting a concatenation is splitting each part and concatenating the results |
| FastFilter.OthersAppend | src/coordinate_filter_fast.cpp:85-91 | the other points of a concatenation are those of the parts in order |
| FastFilter.FrontsAppend | src/coordinate_filter_fast.cpp:85-91 | the front points of a concatenation are those of the parts in order |
| FastFilter.OthersIdempotent | src/coordinate_filter_fast.cpp:85-91 | splitting the other list again changes nothing and finds no front point |
| FastFilter.FrontsIdempotent | src/coordinate_filter_fast.cpp:85-91 | splitting the front list again changes nothing and finds no other point |
| FastFilter.SplitSizes | src/coordinate_filter_fast.cpp:85-91 | the split loses and duplicates no point |
| FastFilter.PrefixOfFronts | src/coordinate_filter_fast.cpp:94-96 | cutting the front list keeps it a list of front points only |
| FastFilter.OthersDistinct | src/coordinate_filter_fast.cpp:85-91 | the other list keeps the Heck numbers pairwise different |
| FastFilter.LimitFrontPoints | src/coordinate_filter_fast.cpp:80-103 | the result is every other point in order followed by the first maxFront front points in order, and nothing else |
| FastFilter.LimitKeepsHeckDistinct | src/coordinate_filter_fast.cpp:80-103 | limiting the front points keeps the Heck numbers pairwise different |
| FastFilter.FilterAndSmooth | src/coordinate_filter_fast.cpp:23-52 | every output point is an in-range, tagged detection; the first point of each Heck number survives; the front points are exactly the first min(4, number of fronts) accepted ones; every in-range detection of another colour is passed on; never more points than paired detections |
| SegmentManager.Reserve | src/segment_manager.cpp:16-32 | succeeds exactly when the segment exists and is free or already held by the vehicle; on failure nothing changes; on success the vehicle holds the segment, the record maps it to that segment, the queue and every other segment are untouched, and the record and queue invariants are kept |
| SegmentManager.ReserveIdempotent | src/segment_manager.cpp:16-32 | reserving a segment one already holds a second time gives the same result as the first reservation |
| SegmentManager.ReserveOverwritesRecord | src/segment_manager.cpp:21-28 | a holder of segment a that reserves segment b holds both, while the record names only b |
| SegmentManager.LatestReservationRecorded | src/segment_manager.cpp:28 | after two successful reservations by one vehicle, `getVehicleSegment` reports the later segment |
| SegmentManager.ProcessQueue | src/segment_manager.cpp:70-84 | an unknown, occupied or unqueued segment is left alone; otherwise the head of the queue becomes the holder, leaves the queue and is recorded on that segment, and nothing else changes |
| SegmentManager.ProcessQueueKeepsInvariants | src/segment_manager.cpp:70-84 | handing a free segment to its queue head keeps every record a held segment and every queue free of duplicates |
| SegmentManager.Release | src/segment_manager.cpp:34-49 | anyone but the holder changes nothing; the holder's release frees the segment and drops its record, and a waiting head then takes the segment and leaves the queue |
| SegmentManager.ReleaseKeepsInvariants | src/segment_manager.cpp:34-49 | a release keeps the record and queue invariants |
| SegmentManager.AddToQueue | src/segment_manager.cpp:51-60 | the vehicle ends up in the queue, which keeps its earlier content as a prefix; a vehicle already waiting and an unknown segment leave everything unchanged; the queue stays duplicate-free |
| SegmentManager.Without | src/segment_manager.cpp:67 | the erase-remove result holds exactly the queue members other than the vehicle and is no longer than the queue |
| SegmentManager.WithoutAppend | src/segment_manager.cpp:67 | removal distributes over concatenation, so the remaining vehicles keep their relative order |
| SegmentManager.WithoutAbsent | src/segment_manager.cpp:67 | removing a vehicle that is not waiting leaves the queue as it was |
| SegmentManager.WithoutDistinct | src/segment_manager.cpp:67 | removal keeps a duplicate-free queue duplicate-free |
| SegmentManager.RemoveFromQueue | src/segment_manager.cpp:62-68 | only the queue of the named segment changes, and it loses every occurrence of the vehicle |
| SegmentManager.AddThenRemove | src/segment_manager.cpp:51-68 | leaving a queue one has just joined restores the manager exactly |
| SegmentManager.VehicleSegment | src/segment_manager.cpp:95-98 | the recorded segment of a vehicle, and -1 for a vehicle with no record |
| SegmentManager.LeaveAllQueues | src/segment_manager.cpp:107-110 | every queue loses the vehicle and nothing else about any segment changes |
| SegmentManager.RemoveVehicle | src/segment_manager.cpp:100-113 | afterwards the vehicle has no record and waits in no queue; segments other than its recorded one keep their holders and only lose it from their queues; a held recorded segment is freed or handed to the head of its queue, and other records change only by that hand-over; the invariants are kept |
| SegmentManager.RemoveVehicleInvariants | src/segment_manager.cpp:100-113 | the release step followed by leaving all queues keeps the record and queue invariants |
| SegmentManager.RemovedVehicleHoldsNothingRecorded | src/segment_manager.cpp:100-105 | a vehicle removed while holding its recorded segment no longer holds it, unless it is itself the head of that segment's queue and so is handed the segment back |
| SegmentManager.Blocked | src/segment_manager.cpp:121-128 | the avoided segments are exactly those occupied by another vehicle |
| SegmentManager.FindAvailablePath | src/segment_manager.cpp:115-139 | no path when start equals end; otherwise the path search avoiding the blocked set, or the unrestricted search when that finds nothing |
| SegmentManager.IsPathClear | src/segment_manager.cpp:146-153 | true exactly when every segment of the path can be entered by the vehicle |
| SegmentManager.ClearPathAvoidsBlocked | src/segment_manager.cpp:146-153 | every segment of a clear path is known and is not in the set `findAvailablePath` avoids |
| VehicleController.EmptyIndexed | src/vehicle_controller.cpp:9-10 | the freshly constructed controller, with no vehicles and next id 0, satisfies the registry invariant |
| VehicleController.NewVehicle | src/vehicle_controller.cpp:13-27 | the new vehicle has no target, is ARRIVED with an empty path, sits on the nearest node, and takes that node's position when the node exists and the start position otherwise |
| VehicleController.AddVehicle | src/vehicle_controller.cpp:12-33 | returns the current next id and increments it, appends the new vehicle after the existing ones, indexes it under its id, and keeps the registry invariant with an id that was not in use |
| VehicleController.AddVehicleIdsConsecutive | src/vehicle_controller.cpp:30-32 | adding n vehicles to a fresh controller returns the ids 0, 1, ..., n-1 |
| VehicleController.AddAll | src/vehicle_controller.cpp:12-33 | adding several vehicles in turn returns one id per vehicle and advances the next id by their number |
| VehicleController.AddAllIds | src/vehicle_controller.cpp:30-32 | adding n vehicles returns the n ids that follow the current next id, in order |
| VehicleController.GetVehicle | src/vehicle_controller.cpp:162-170 | a vehicle is found exactly when its id is registered, and the vehicle found carries that id |
| VehicleController.AddThenGet | src/vehicle_controller.cpp:12-33 | a freshly added vehicle is found under the id `addVehicle` returned |
| VehicleController.MapRealVehicle | src/vehicle_controller.cpp:132-145 | a known colour answers with its mapped id and changes nothing; a new colour adds one vehicle, gets the next id and is mapped to it |
| VehicleController.MapRealVehicleIdempotent | src/vehicle_controller.cpp:134-137 | mapping the same colour a second time, from any position, returns the same id and adds no vehicle |
| VehicleController.SpawnKeysAreHeckNumbers | src/vehicle_controller.cpp:57 | the colour key of the i-th initial vehicle is "Heck" followed by the decimal numeral of i + 1 |
| VehicleController.SpawnKeysDistinct | src/vehicle_controller.cpp:57 | the four initial colour keys are pairwise different |
| VehicleController.Spawn | src/vehicle_controller.cpp:52-62 | after k loop iterations the registry holds k vehicles with ids 0 to k-1, each created at node i * step, and maps exactly the first k keys to their ids |
| VehicleController.MapColorIndexed | src/vehicle_controller.cpp:58 | mapping a colour to a registered id keeps the registry invariant |
| VehicleController.SpawnKeysStep | src/vehicle_controller.cpp:57-58 | mapping the k-th key to id k-1 extends a map of the first k-1 keys to a map of the first k keys |
| VehicleController.SpawnInitialVehicles | src/vehicle_controller.cpp:35-65 | with fewer than four nodes nothing changes; otherwise the registry is rebuilt with exactly four vehicles, vehicle i spawned at node i·max(1, n/4) with id i, and the colour map sends "Heck1" to "Heck4" to ids 0 to 3 and holds no other key |
| VehicleController.SpawnIndicesInRange | src/vehicle_controller.cpp:50-52 | with at least four nodes and step max(1, n/4), the four start indices i * step are all valid nodes, so the loop always runs four times |
| VehicleController.PlanVehicle | src/vehicle_controller.cpp:236-274 | a vehicle without a node or a waiting-node target is unchanged and fails; one already at the target becomes ARRIVED with an empty path; otherwise it succeeds exactly when `findAvailablePath` finds a path, which it then follows from index 0 as IDLE, and it becomes WAITING when there is none |
| VehicleController.OptimalFallbackRedundant | src/vehicle_controller.cpp:255-260 | when `findAvailablePath` finds nothing, the unrestricted search `findOptimalPath` makes finds nothing either |
| VehicleController.Replace | src/vehicle_controller.cpp:162-165 | writing through the pointer `getVehicle` returns changes only that vehicle, which is then found under its id; the registry invariant is kept |
| VehicleController.PlanPath | src/vehicle_controller.cpp:236-238 | an unknown vehicle gives false and no change; otherwise the registered vehicle is replaced by its plan and no other vehicle changes |
| VehicleController.SetTargetVehicle | src/vehicle_controller.cpp:172-199 | a waiting-node target leaves the vehicle unchanged; otherwise the target is set and the pending target cleared, a vehicle without a node or at the target becomes ARRIVED, and any other becomes IDLE on the found path exactly when `findAvailablePath` finds one and WAITING with its old path when it does not; position and current node never change |
| VehicleController.SetVehicleTargetNode | src/vehicle_controller.cpp:172-181 | an unknown vehicle or a waiting-node target changes nothing; otherwise only the addressed vehicle is updated, the number of vehicles and the id and colour maps are kept, and the registry invariant holds |
| VehicleController.WaitingNodeNeverTarget | src/vehicle_controller.cpp:176-181 | a waiting node never becomes a target: the controller is unchanged and no plan towards it succeeds |
| VehicleController.NextSegment | src/vehicle_controller.cpp:346-347 | there is a next segment exactly when the path is non-empty and the index is inside it, and it is the path entry at the index |
| VehicleController.StepIdle | src/vehicle_controller.cpp:343-361 | an IDLE vehicle with a target elsewhere and a next segment becomes MOVING exactly when it can enter that segment, and then holds it; otherwise it becomes WAITING and joins the segment's queue; in every other case nothing changes |
| VehicleController.HandleBlocked | src/vehicle_controller.cpp:451-469 | a WAITING vehicle with a next segment becomes MOVING exactly when it can enter and reserve it, and otherwise stays WAITING and is queued for it; any other vehicle is left alone |
| VehicleController.UpdateVehicleMovement | src/vehicle_controller.cpp:341-375 | ARRIVED vehicles stay put, MOVING ones advance by the path-following parameter, IDLE and WAITING ones take the steps above |
| VehicleController.StepOutcome | src/vehicle_controller.cpp:343-369 | after one step an IDLE or WAITING vehicle with a next segment either is MOVING and holds that segment or is WAITING and stands in its queue |
| EspFirmware.ValidateCommand | esp_vehicle/main/main.cpp:147-165 | a direction outside 1..5 is refused, a stop (5) is accepted with any speed, and a driving direction is accepted exactly when its speed lies in 120..255 |
| EspFirmware.SendToVehicle | esp_vehicle/main/main.cpp:113-144 | a message is sent exactly when the vehicle id lies in 1..4, then to that vehicle's address with the id, direction and speed given |
| EspFirmware.HandleUart | esp_vehicle/main/main.cpp:168-214 | a message goes out exactly for a read with three conversions, a valid command and a vehicle id in 1..4; it goes to that vehicle's address with the direction read and the speed read, or speed 0 for a stop |
| EspFirmware.ForwardsValidFrame | esp_vehicle/main/main.cpp:187-201 | a frame `"d,s,v\n"` with a valid command and vehicle 1..4 reaches exactly that vehicle's address with speed forced to 0 for a stop |
| EspFirmware.DropsInvalidFrame | esp_vehicle/main/main.cpp:189-204 | a three-field frame with an invalid command or a vehicle id outside 1..4 sends nothing |
| EspFirmware.DropsTwoFieldFrame | esp_vehicle/main/main.cpp:187-208 | a two-field frame `"d,s\n"` gives two conversions, a parse error, and sends nothing |
| SerialLink.Disconnect | src/serial_communication.cpp:87-94 | closing an open handle invalidates it and clears the connected flag; without an open handle nothing changes |
| SerialLink.DisconnectIdempotent | src/serial_communication.cpp:87-94 | disconnecting twice is disconnecting once |
| SerialLink.SendData | src/serial_communication.cpp:96-110 | the send succeeds exactly when the port is connected with a valid handle and the write wrote every byte of the data |
| SerialLink.SendCommand | src/serial_communication.cpp:206-217 | nothing succeeds unconnected; connected, the outcome is that of sending the frame `"d,s\n"` |
| SerialLink.CommandSpeed | src/serial_communication.cpp:173-182 | stop and 0 give speed 0, forward and back 130, left and right 160, and every other direction 130 |
| SerialLink.Frames | src/serial_communication.cpp:167-195 | one two-field frame per matched command, in file order, with the speed derived from its direction |
| SerialLink.AllSent | src/serial_communication.cpp:162-189 | the success flag stays set exactly when every command's send succeeded |
| SerialLink.SendVehicleCommands | src/serial_communication.cpp:139-204 | nothing is sent without a connection or a readable file; otherwise the frames are exactly those of the matches, and the result is true exactly when there was at least one match and every frame was fully written |
| SerialLink.VehicleIdNotTransmitted | src/serial_communication.cpp:169-187 | batches differing only in vehicle ids send the same frames with the same result: the id is parsed but never sent |
| Text.IntToString | src/direction_speed_sender.cpp:104 | the decimal numeral of the value is non-empty, starts with a minus exactly for negative values and is all digits otherwise |
| Text.IntToStringValue | src/direction_speed_sender.cpp:104 | the digits of the numeral, after the minus sign of a negative value, denote the magnitude of the value |
| Text.NatToString | src/direction_speed_sender.cpp:104 | the shortest decimal numeral whose digits denote the value, with no leading zero |
| Text.ScanInt | esp_vehicle/main/main.cpp:187 | a `%d` conversion ends after a digit and at the end of the maximal digit run |
| Text.ScanThreeInts | esp_vehicle/main/main.cpp:187 | the conversion count lies in -1..3, is -1 only for blank input, and equals the number of values stored, the first being the first numeral |
| Text.ScanAfter | esp_vehicle/main/main.cpp:187 | after the values already stored, each comma and numeral stores one more value, up to three |
| Text.ScanIntOfNumeral | esp_vehicle/main/main.cpp:187 | a numeral written by `std::to_string` and not followed by a digit is read back to its value by one `%d` |
| Text.ScanFormatThree | esp_vehicle/main/main.cpp:187-189 | a frame written as `"d,s,v\n"` is scanned into three conversions holding exactly d, s and v |
| Text.ScanFormatTwo | esp_vehicle/main/main.cpp:187-189 | a frame written as `"d,s\n"` is scanned into exactly two conversions, d and s |
| Text.Stoi | src/direction_speed_sender.cpp:224-226 | a value exactly when the text starts with a numeral whose value fits in `int`, and then that value |
| Text.StoiOfIntToString | src/direction_speed_sender.cpp:224-226 | `std::stoi` reads back every `int` written by `std::to_string` |
| Text.FindFrom | src/car_simulation.cpp:70 | the first occurrence of the pattern at or after the start, or none exactly when there is no occurrence there |
| Text.StartsWithIsFindZero | src/car_simulation.cpp:70 | `find(p) == 0` holds exactly when the text starts with p |
| Text.FindDigitFrom | src/json_all_vehicles.cpp:132 | the first digit at or after the start, or none exactly when there is no digit there |
| Text.TrimFront | src/json_to_esp32.cpp:47 | the result is a suffix of the text obtained by removing only characters of the set, and it does not start with one |
| Text.TrimBack | src/json_to_esp32.cpp:48 | the result is a prefix of the text obtained by removing only characters of the set, and it does not end with one |
| Text.Stof | src/json_to_esp32.cpp:68 | a value only for text that holds a digit |
| Text.StofOfNatToString | src/json_to_esp32.cpp:65-68 | `std::stof` reads back every whole number written in decimal |
| KeyboardSender.CRem | src/direction_speed_sender.cpp:120 | C's `%` agrees with the mathematical remainder on non-negative values and always lies strictly between -n and n |
| KeyboardSender.SwitchVehicle | src/direction_speed_sender.cpp:119-122 | the selection moves from vehicle k to k + 1 and from 4 back to 1, staying in 1..4 |
| KeyboardSender.SwitchCycles | src/direction_speed_sender.cpp:119-122 | four switches come back to the vehicle selected before |
| KeyboardSender.SendCommand | src/direction_speed_sender.cpp:86-117 | nothing is written unconnected; otherwise the frame `"d,s,v\n"` names the given vehicle or, for -1, the selected one, and the call succeeds exactly when every byte was written |
| KeyboardSender.ParseTriple | src/direction_speed_sender.cpp:217-241 | a typed line is sent only with two commas, three convertible fields, direction 1..5 and vehicle 1..4; everything else is rejected |
| KeyboardSender.ParseSplit | src/direction_speed_sender.cpp:224-226 | the fields are the texts before, between and after the two commas |
| KeyboardSender.ParseFields | src/direction_speed_sender.cpp:223-235 | a failed conversion or an out-of-range direction or vehicle rejects the line; the speed is not checked |
| KeyboardSender.Dispatch | src/direction_speed_sender.cpp:187-243 | an empty line is skipped; w, s, a, d and x map to their fixed direction and speed for the selected vehicle; v switches, h shows help, q quits; any other first character goes to the free-form parse |
| KeyboardSender.Step | src/direction_speed_sender.cpp:183-244 | a send action writes exactly what `sendCommand` writes for it; a switch moves the selection and writes nothing; nothing else changes the sender, and the connection is never changed |
| KeyboardSender.Run | src/direction_speed_sender.cpp:183-244 | the main loop keeps the connection over any sequence of lines |
| KeyboardSender.LinesAfterQuitIgnored | src/direction_speed_sender.cpp:213-215 | a quit line ends the session: the lines after the first one change nothing |
| KeyboardSender.SelectedVehicleInRange | src/direction_speed_sender.cpp:119-122 | starting from a vehicle in 1..4, the selection stays in 1..4 over any sequence of lines |
| KeyboardSender.ParseTripleFields | src/direction_speed_sender.cpp:218-229 | a line laid out as `d,s,v` with valid direction and vehicle is sent with exactly those values |
| KeyboardSender.TypedTripleParsed | src/direction_speed_sender.cpp:218-229 | the free-form branch reads back any triple written in decimal with direction 1..5 and vehicle 1..4 |
| KeyboardSender.TypedTripleIsSent | src/direction_speed_sender.cpp:189-229 | a typed `d,s,v` line with direction 1..5 and vehicle 1..4 is sent as written |
| KeyboardSender.DispatchDigitLine | src/direction_speed_sender.cpp:216-218 | a line starting with a digit goes to the free-form branch |
| KeyboardSender.ForwardKeyReachesVehicle | src/direction_speed_sender.cpp:192-193 | the key w sends `"1,200,c\n"` for the selected vehicle c, and the bridge firmware forwards it to vehicle c |
| KeyboardSender.UncheckedSpeedDroppedByBridge | src/direction_speed_sender.cpp:228-229 | a typed forward command with speed 50 is sent, and the bridge firmware drops it for its speed |
| JsonSenders.SenderSpeed | src/json_sender_simple.cpp:86-99 | forward and back get 125, left and right 160, every other direction 0 |
| JsonSenders.SenderSpeedsAccepted | src/json_sender_simple.cpp:86-99 | the table speed of every direction 1..5 passes the bridge firmware's check, and direction 0 fails it |
| JsonSenders.DigitAfter | src/json_sender_simple.cpp:125-131 | a single digit 0..9; a non-zero value is a digit found at or after the key |
| JsonSenders.SendToOne | src/json_sender_simple.cpp:80-113 | nothing is written unconnected; otherwise the frame `"d,s,v\n"` carries the table speed, and the call succeeds exactly when every byte was written |
| JsonSenders.ParseSimple | src/json_sender_simple.cpp:115-147 | a pair is sent exactly when both keys occur and the digits read after them give vehicle 1..4 and direction 0..5, then with those digits |
| JsonSenders.HandleSimple | src/json_sender_simple.cpp:115-147 | a send is attempted exactly when the content parses, and then for the parsed vehicle and direction |
| JsonSenders.SimpleFrameReachesVehicle | src/json_sender_simple.cpp:143-146 | a frame the simple sender writes is forwarded by the bridge firmware exactly when its direction is not 0 |
| JsonSenders.FirstDigitOnly | src/json_sender_simple.cpp:129 | a two-digit value is cut to its first digit: `"vehicle_id": 12` reads as vehicle 1 |
| JsonSenders.SendToAll | src/json_all_vehicles.cpp:86-120 | nothing is written unconnected; otherwise the two-field frame `"d,s\n"` carries the table speed, and the call succeeds exactly when every byte was written |
| JsonSenders.ParseDirection | src/json_all_vehicles.cpp:122-143 | a direction is sent only when the key occurs and then lies in 0..5; with the key present and a digit of at most 5 it is always sent |
| JsonSenders.HandleAll | src/json_all_vehicles.cpp:122-143 | a send is attempted exactly when the direction parses, and then for that direction |
| JsonSenders.HandleMonitor | src/json_monitor_debug.cpp:106-156 | the debug monitor sends as the all-vehicles sender does and counts exactly the completely written frames |
| JsonSenders.AllVehiclesFrameDropped | src/json_all_vehicles.cpp:108 | the all-vehicles frame has two fields, so the bridge firmware never forwards it |
| JsonToEsp32.TrimLine | src/json_to_esp32.cpp:46-47 | the trimmed line is no longer than the raw one and neither starts nor ends with a space or tab |
| JsonToEsp32.FieldValue | src/json_to_esp32.cpp:60-73 | a value is read only from a line holding the key, from the text after the first colon stripped of blanks and trailing commas |
| JsonToEsp32.OpenObject | src/json_to_esp32.cpp:49-57 | only a `"color":` line changes the reader, then by setting the colour and opening an object; records and other fields are kept |
| JsonToEsp32.AfterColon | src/json_to_esp32.cpp:52 | the search starts after the first colon, or at 0 when there is none, as `npos + 1` wraps |
| JsonToEsp32.ColorStart | src/json_to_esp32.cpp:52 | the colour starts after the first quote following that point, or at 0 when there is none |
| JsonToEsp32.ColorValue | src/json_to_esp32.cpp:52-56 | a colour is read exactly when a quote follows its start: the text up to that quote, which holds no quote; otherwise nothing |
| JsonToEsp32.ColorLineValue | src/json_to_esp32.cpp:50-56 | the colour written on a `"color": "c",` line is read back as c |
| JsonToEsp32.ReadFields | src/json_to_esp32.cpp:59-105 | outside an object nothing changes; inside, only x, y and area change, and the x or y flag is raised only when that number was read |
| JsonToEsp32.CloseObject | src/json_to_esp32.cpp:107-116 | a line with `}` inside an object appends the record exactly when its colour is non-empty and resets the reader; otherwise nothing changes |
| JsonToEsp32.ReadLine | src/json_to_esp32.cpp:45-117 | one line appends at most one record, never touches earlier ones, and any record it appends has a colour |
| JsonToEsp32.ReadLineColored | src/json_to_esp32.cpp:107-112 | reading a line keeps every record coloured |
| JsonToEsp32.ReadLines | src/json_to_esp32.cpp:45-117 | the records only grow, by at most one per line, and stay coloured |
| JsonToEsp32.ParseCoordinates | src/json_to_esp32.cpp:32-119 | at most one record per line of the file, each with a non-empty colour |
| JsonToEsp32.ClosedQuietLine | src/json_to_esp32.cpp:49-112 | outside an object a line without the colour key changes nothing |
| JsonToEsp32.ClosedLineWithoutC | src/json_to_esp32.cpp:49-112 | outside an object a line without the letter c changes nothing |
| JsonToEsp32.ColorLineOpens | src/json_to_esp32.cpp:49-57 | an indented line `"color": "c",` opens an object with colour c |
| JsonToEsp32.CoordinatesLineQuiet | src/json_to_esp32.cpp:59-112 | the line opening the nested coordinates object changes nothing |
| JsonToEsp32.NumberLineSets | src/json_to_esp32.cpp:59-89 | an indented `"x": v` or `"y": v` line inside an object sets that coordinate to v and marks it read |
| JsonToEsp32.InnerCloseLine | src/json_to_esp32.cpp:107-116 | the `},` that ends the nested coordinates object already closes the record |
| JsonToEsp32.NoDigitNoNumber | src/json_to_esp32.cpp:67-68 | text without a digit is never read as a number |
| JsonToEsp32.ReadsWrittenObject | src/json_to_esp32.cpp:45-117 | one object in the indented layout the camera writes is read back as exactly one record with its colour and both coordinates, and with area 0, because the record is closed before the area line |
| JsonToEsp32.FoundHecks | src/json_to_esp32.cpp:157-169 | every entry of the map is stored under its own colour |
| JsonToEsp32.FoundHecksLastWins | src/json_to_esp32.cpp:157-169 | the map holds exactly the colours starting with "Heck" that occur, each with its last record |
| JsonToEsp32.HeckEntry | src/json_to_esp32.cpp:172-189 | an entry is valid exactly when its colour was found with both coordinates, then carrying them, and otherwise holds (-1, -1) |
| JsonToEsp32.HeckTable | src/json_to_esp32.cpp:144-193 | always four entries, for Heck1 to Heck4 in order |
| JsonToEsp32.HeckTableEntry | src/json_to_esp32.cpp:144-193 | entry k is valid exactly when the last record of its colour has both coordinates, and then carries them; otherwise (-1, -1) |
| JsonToEsp32.LatestStep | src/json_to_esp32.cpp:263-270 | one more position of the option scan: a flag takes the next argument, anything else keeps the value |
| JsonToEsp32.ParseArgs | src/json_to_esp32.cpp:244-270 | help and single-shot mode are chosen exactly by the first argument; port and file are the argument after the last flag among positions before the final one, or the defaults COM4 and coordinates.json |
| Sorting.SortDesc | src/Farberkennung.py:386 | the result is in non-increasing key order and is a permutation of the input |
| Sorting.Insert | src/Farberkennung.py:386 | inserting into a sorted list keeps it sorted and adds exactly the one element |
| Sorting.ConsSortedDesc | src/Farberkennung.py:386 | an element with a key at least the head's may precede a sorted list |
| Sorting.WithKey | src/Farberkennung.py:386 | the elements carrying one key value, each of which does carry it |
| Sorting.InsertStable | src/Farberkennung.py:386 | insertion keeps the input order among elements of equal key |
| Sorting.SortStable | src/Farberkennung.py:386 | for every key value the elements carrying it keep their input order, as Python's sort with `reverse=True` does |
| Sorting.SortSortedIdentity | src/Farberkennung.py:386 | an input already in non-increasing key order comes back unchanged |
| VehicleFleet.AddVehicle | src/VehicleFleet.cpp:10-17 | the vehicle is appended to all three lists, everything before it is kept, and aligned lists stay aligned |
| VehicleFleet.Entry | src/VehicleFleet.cpp:19-24 | an index inside the list gives its entry, any other index the empty string |
| VehicleFleet.AddThenGet | src/VehicleFleet.cpp:10-38 | after adding, the new index answers with the added vehicle, earlier indices as before, and later ones with "" |
| VehicleFleet.Configure | src/VehicleFleet.cpp:10-17 | a fleet built by adding vehicles one by one is aligned and answers every index with the vehicle added there |
| Geometry.SqDist | src/car_simulation.cpp:225-229 | the squared distance of two pixel positions is zero exactly when they coincide |
| Geometry.SqDistSymmetric | src/car_simulation.cpp:225-229 | the distance does not depend on the order of the two points |
| Geometry.NormaliseDegrees | src/Vehicle.cpp:88-90 | adding 360 to a negative angle moves every angle in [-360, 360) into [0, 360) and changes it by a whole turn at most |
| Geometry.Heading | src/Vehicle.cpp:79-93 | the heading lies in [0, 360) and differs from atan2(dx, -dy) in degrees by 0 or 360 |
| Geometry.Midpoint | src/auto.cpp:24-25 | the midpoint is equally far from both points and its doubled coordinates are their sums |
| Geometry.TruncDiv | src/car_simulation.cpp:18-19 | C's `/` leaves a remainder smaller than the divisor with the sign of the dividend, and agrees with Dafny's division on non-negative operands |
| Geometry.TruncReal | src/car_simulation.cpp:69 | a C cast to `int` is off by less than one, never larger in magnitude, keeps the sign, and is the floor for non-negative values |
| Geometry.Clamp | src/car_simulation.cpp:112-113 | the result is never below the lower bound, never above a non-smaller upper bound, and a value inside the bounds is kept |
| Geometry.ClampR | src/Farberkennung.py:245-246 | the real-valued clamp keeps the same three promises |

## Left out

- OpenCV pixel work is not modelled: colour conversion, `inRange`, morphology, `findContours`, moments, `contourArea`, `arcLength`. Blobs and contours are inputs. The compactness term `4·pi·area/perimeter²` and the hue of the frame at a pixel are parameters.
- Camera acquisition, windows, trackbars and all drawing are not modelled, including the render methods of the simulation. A failed camera read in `get_car_detection_data` is a flag.
- Serial, UART and radio I/O are not modelled: `connect`, `CreateFileA`, `esp_now_send`, port enumeration. What a `WriteFile` call reports is a parameter. A message sent by radio is a value.
- Rate-limit sleeps are not modelled. They delay a send and never change whether it happens or what it carries.
- File watching, timestamps and file reading are not modelled. The senders take the file content as a string, the relay takes the file as a sequence of lines, and `sendVehicleCommands` takes whether the file opened and the regex matches.
- Threading and locks are not modelled.
- Floating point is modelled as reals. `sqrt` is replaced by squared-distance comparisons, and `(int)` casts by truncation toward zero. `round(…, 2)` and `float` rounding are not modelled.
- `atan2` is an uninterpreted function whose value in degrees lies in (-180, 180].
- `std::stof` is modelled for plain decimals only. Exponent forms, hexadecimal forms such as `0x1A`, `inf` and `nan` are not modelled, and neither is the `std::out_of_range` thrown for a decimal beyond the `float` range. The Python writer of the coordinates file produces none of these.
- Contours whose `m00` moment is 0 are skipped, as in the source; the moment itself is an input, not computed from pixels.
- Clock readings are an integer parameter `now` in milliseconds.
- The path system of the simulation is not part of this model. Its `findPath`, `findNearestNode`, node table and segment table are parameters. `getSegments` order is abstracted, so the avoided segments of `findAvailablePath` are a set.
- `moveVehicleAlongPath` is a parameter of `updateVehicleMovement`, so MOVING vehicles advance however that function says.
- Random target assignment and the constant-return stubs of the segment manager and the controller are not modelled.
- `updateVehicleFromRealCoordinates`, `syncRealVehiclesWithSystem`, `updateVehiclePaths`, `coordinateVehicleMovements` and `updateVehicleMovements` of the controller are not modelled: they only loop over vehicles and call the modelled steps or the left-out path system.
- `updateQueues`, `findOptimalPath`, `getOccupiedSegments` and `printSegmentStatus` of the segment manager are not modelled: they are printing, plain path-system calls or loops over the modelled operations. `findOptimalPath` enters only as the path-search parameter.
- The null `pathSystem` checks of the controller are not modelled; a path system is always present.
- The constructor defaults of the controller and simulation that are not shown are not modelled. The expected pair distance and its tolerance are parameters.
- Pointers to points in `stablePairPointsToCars` are modelled as indices into the current lists. A reference is usable only while its index lies inside the list and names a valid point.
- The 8-argument `CoordinateFilter` constructor called by `FastCoordinateFilter` does not exist in the header. Only the filtering logic of the fast filter is modelled.
- The point and detection structs of the simulation are missing from the shown headers. Points are taken to be created valid, with the third constructor argument as the front flag.
- The `HeckCoordinate` table is modelled up to its hand-over to `sendAllHeckCoordinates`. The UART transfer and the monitoring loop are not modelled.
- `processQueue` is modelled on a free segment only. Its branch that re-inserts a vehicle after a failed reservation cannot be reached, because the segment is free when the head is taken.
- CoordinateFilter.ExpireAndRemove: states which points survive and that each survivor comes from an input point, but not that survivors keep their stored order.
- CoordinateFilter.Reported: states which positions are reported, but not their order.
- CoordinateFilter.UpdateAll: bounds the number of points and keeps the settings; what each update does is stated by `CoordinateFilter.UpdatePoint`.
- CarSimulation.HeckId: colour names are taken as ASCII. The source subtracts the byte `'1'` from the fifth byte of the name, while the model subtracts code points, so a name with a multi-byte fifth character gets a different id.
- Text.Stof: states only that a number needs a digit. Its value on whole numbers is stated by `Text.StofOfNatToString`.
- JsonSenders.DigitAfter: states that the value is a digit found after the key, not that it is the first digit after the first colon.
- `distanceTo` of the coordinate filter's points is taken to be the Euclidean distance; point.cpp is not part of this model.
- SerialLink.SendVehicleCommands: takes the matched fields as integers, so the `std::out_of_range` that `std::stoi` throws on an over-long digit run, which ends the call with an exception, is not modelled.
