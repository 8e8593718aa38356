/** The doctor records the page is given, and the lookup of the doctor the
    page is about (the `doctors.find(...)` of the first effect). */
module Doctors {

  datatype Option<+T> = None | Some(value: T)

  /** One record of the shared doctor list. Only `id` takes part in the logic;
      the other fields are what the profile card shows. */
  datatype Doctor = Doctor(
    id: string,
    name: string,
    image: string,
    degree: string,
    speciality: string,
    experience: string,
    about: string,
    fees: int
  )

  /** True when some record carries the identifier `docId`. */
  predicate HasDoctor(doctors: seq<Doctor>, docId: string) {
    exists i :: 0 <= i < |doctors| && doctors[i].id == docId
  }

  /** `doctors.find(doc => doc._id === docId)`: the first record, in list
      order, whose identifier is `docId`, or nothing on a miss. */
  function FindDoctor(doctors: seq<Doctor>, docId: string): (r: Option<Doctor>)
    ensures r.Some? <==> HasDoctor(doctors, docId)
    ensures r.Some? ==> r.value.id == docId
    ensures r.Some? ==>
      exists i :: 0 <= i < |doctors| && doctors[i] == r.value &&
        forall j :: 0 <= j < i ==> doctors[j].id != docId
  {
    if |doctors| == 0 then None
    else if doctors[0].id == docId then Some(doctors[0])
    else
      var rest := FindDoctor(doctors[1..], docId);
      assert HasDoctor(doctors, docId) ==> HasDoctor(doctors[1..], docId) by {
        if HasDoctor(doctors, docId) {
          var i :| 0 <= i < |doctors| && doctors[i].id == docId;
          assert doctors[1..][i - 1].id == docId;
        }
      }
      assert rest.Some? ==>
        exists i :: 0 <= i < |doctors| && doctors[i] == rest.value &&
          forall j :: 0 <= j < i ==> doctors[j].id != docId
      by {
        if rest.Some? {
          var i :| 0 <= i < |doctors[1..]| && doctors[1..][i] == rest.value &&
            forall j :: 0 <= j < i ==> doctors[1..][j].id != docId;
          assert doctors[i + 1] == rest.value;
          assert forall j :: 0 <= j < i + 1 ==> doctors[j].id != docId by {
            forall j | 0 <= j < i + 1 ensures doctors[j].id != docId {
              if j > 0 { assert doctors[j] == doctors[1..][j - 1]; }
            }
          }
        }
      }
      rest
  }
}
